/**
 * The JSON serializer's deserialization: without a type the parsed value is
 * returned as it is; with a type a new instance is created and hydrated, which
 * copies only the properties the instance already owns. The JSON text itself
 * is not modelled: `deserialize` receives the parsed value.
 */
module Serialization {
  import opened Wrappers

  /** A parsed JSON value. Numbers are integers in this model. */
  datatype Value =
    | Null
    | Bool(b: bool)
    | Num(n: int)
    | Str(s: string)
    | Arr(items: seq<Value>)
    | Obj(members: map<string, Value>)

  /** A class the serializer can instantiate: its name and the own properties
      its constructor gives every new instance. */
  datatype ClassType = ClassType(name: string, defaults: map<string, Value>)

  /** An object whose own properties are changed in place. */
  class JsObject {
    var fields: map<string, Value>

    constructor (fields: map<string, Value>)
      ensures this.fields == fields
    {
      this.fields := fields;
    }

    /** Whether `p` is an own property; inherited ones are not modelled. */
    function HasOwnProperty(p: string): (b: bool)
      reads this
      ensures b <==> p in fields.Keys
    {
      p in fields
    }
  }

  /** What `deserialize` returns: the parsed value, or a hydrated instance. */
  datatype Deserialized = Plain(value: Value) | Instance(obj: JsObject)

  /** The decimal digit `d`. */
  function DigitChar(d: nat): (c: char)
    requires d < 10
  {
    "0123456789"[d]
  }

  /** The decimal text of `n`, as a property key. */
  function NatToString(n: nat): (s: string)
    ensures |s| >= 1
    decreases n
  {
    if n < 10 then [DigitChar(n)] else NatToString(n / 10) + [DigitChar(n % 10)]
  }

  /** Different digits are different characters. */
  lemma DigitCharInjective(x: nat, y: nat)
    requires x < 10 && y < 10
    ensures DigitChar(x) == DigitChar(y) ==> x == y
  {
  }

  /** Different indices give different property keys. */
  lemma {:induction false} NatToStringInjective(a: nat, b: nat)
    ensures NatToString(a) == NatToString(b) ==> a == b
    decreases a
  {
    var sa, sb := NatToString(a), NatToString(b);
    if sa == sb {
      if a < 10 && b < 10 {
        DigitCharInjective(a, b);
      } else if a >= 10 && b >= 10 {
        var pa, pb := NatToString(a / 10), NatToString(b / 10);
        assert sa == pa + [DigitChar(a % 10)] && sb == pb + [DigitChar(b % 10)];
        assert pa == sa[..|sa| - 1] && pb == sb[..|sb| - 1];
        NatToStringInjective(a / 10, b / 10);
        DigitCharInjective(a % 10, b % 10);
      }
    }
  }

  /** The keys a `for...in` loop enumerates over a parsed value, with the value
      under each: an object's members, the indices of an array or of a string's
      characters, and nothing for null, booleans and numbers. */
  function Enumerable(v: Value): (m: map<string, Value>)
    ensures v.Obj? ==> m == v.members
    ensures v.Arr? ==> forall i :: 0 <= i < |v.items| ==> NatToString(i) in m && m[NatToString(i)] == v.items[i]
    ensures v.Str? ==> forall i :: 0 <= i < |v.s| ==> NatToString(i) in m && m[NatToString(i)] == Str([v.s[i]])
    ensures v.Null? || v.Bool? || v.Num? ==> m == map[]
  {
    match v
    case Obj(members) => members
    case Arr(items) => Indexed(items)
    case Str(s) => Indexed(seq(|s|, i requires 0 <= i < |s| => Str([s[i]])))
    case _ => map[]
  }

  /** The elements of `items`, keyed by the decimal text of their index. */
  function Indexed(items: seq<Value>): (m: map<string, Value>)
    ensures forall i :: 0 <= i < |items| ==> NatToString(i) in m && m[NatToString(i)] == items[i]
    decreases |items|
  {
    if items == [] then map[]
    else
      var n := |items| - 1;
      var prev := Indexed(items[..n]);
      assert forall i :: 0 <= i < n ==> items[..n][i] == items[i];
      KeysBelowDiffer(n);
      prev[NatToString(n) := items[n]]
  }

  /** The key of index `n` differs from the keys of all smaller indices. */
  lemma KeysBelowDiffer(n: nat)
    ensures forall i :: 0 <= i < n ==> NatToString(i) != NatToString(n)
  {
    forall i | 0 <= i < n
      ensures NatToString(i) != NatToString(n)
    {
      NatToStringInjective(i, n);
    }
  }

  /** Every key of `Indexed(items)` is the text of an index of `items`. */
  lemma {:induction false} IndexedKeys(items: seq<Value>, k: string)
    ensures k in Indexed(items) ==> exists i :: 0 <= i < |items| && k == NatToString(i)
    decreases |items|
  {
    if items != [] && k in Indexed(items) {
      var n := |items| - 1;
      if k != NatToString(n) {
        IndexedKeys(items[..n], k);
      }
    }
  }

  /** The entries of `m` whose key is in `keys`. */
  function Restrict(m: map<string, Value>, keys: set<string>): (r: map<string, Value>)
    ensures r.Keys == m.Keys * keys
    ensures forall k :: k in r ==> r[k] == m[k]
  {
    map k | k in m && k in keys :: m[k]
  }

  /** The target's own properties after hydration from `data`: every property
      the target owns takes the data's value when the data has one. */
  function Hydrated(target: map<string, Value>, data: map<string, Value>): (r: map<string, Value>)
    ensures r.Keys == target.Keys
    ensures forall k :: k in target && k in data ==> r[k] == data[k]
    ensures forall k :: k in target && k !in data ==> r[k] == target[k]
  {
    map k | k in target :: if k in data then data[k] else target[k]
  }

  /** Hydrating twice from the same data changes nothing more. */
  lemma HydrateIdempotent(target: map<string, Value>, data: map<string, Value>)
    ensures Hydrated(Hydrated(target, data), data) == Hydrated(target, data)
  {
    var once := Hydrated(target, data);
    assert Hydrated(once, data).Keys == once.Keys;
  }

  /** Properties the target does not own have no effect. */
  lemma HydrateIgnoresUnknown(target: map<string, Value>, data: map<string, Value>)
    ensures Hydrated(target, data) == Hydrated(target, Restrict(data, target.Keys))
  {
    assert Hydrated(target, data).Keys == Hydrated(target, Restrict(data, target.Keys)).Keys;
  }

  /** When the data carries every property the target owns, no default survives. */
  lemma HydrateFromCompleteData(target: map<string, Value>, data: map<string, Value>)
    requires target.Keys <= data.Keys
    ensures Hydrated(target, data) == Restrict(data, target.Keys)
  {
    assert Hydrated(target, data).Keys == Restrict(data, target.Keys).Keys;
  }

  /** Handling one more data key updates at most the property of that key. */
  lemma HydratedStep(target: map<string, Value>, data: map<string, Value>, done: set<string>, p: string)
    requires p in data
    ensures var before := Hydrated(target, Restrict(data, done));
      Hydrated(target, Restrict(data, done + {p}))
        == if p in target then before[p := data[p]] else before
  {
    var before := Hydrated(target, Restrict(data, done));
    var after := Hydrated(target, Restrict(data, done + {p}));
    if p in target {
      assert after.Keys == before[p := data[p]].Keys;
    } else {
      assert after.Keys == before.Keys;
    }
  }

  /** Copies into `obj` every enumerated key of `data` that `obj` already owns,
      and returns `obj` itself. */
  method Hydrate(obj: JsObject, data: map<string, Value>) returns (r: JsObject)
    modifies obj
    ensures r == obj
    ensures obj.fields == Hydrated(old(obj.fields), data)
  {
    var keys := data.Keys;
    while keys != {}
      invariant keys <= data.Keys
      invariant obj.fields == Hydrated(old(obj.fields), Restrict(data, data.Keys - keys))
      decreases keys
    {
      var p :| p in keys;
      HydratedStep(old(obj.fields), data, data.Keys - keys, p);
      assert data.Keys - (keys - {p}) == (data.Keys - keys) + {p};
      if obj.HasOwnProperty(p) {
        obj.fields := obj.fields[p := data[p]];
      }
      keys := keys - {p};
    }
    assert Restrict(data, data.Keys - keys) == data;
    r := obj;
  }

  /** Without a type the parsed value comes back as it is; with one, a new
      instance of the type is hydrated from the value's enumerable keys. */
  method Deserialize(parsed: Value, classType: Option<ClassType>) returns (r: Deserialized)
    ensures classType.None? ==> r == Plain(parsed)
    ensures classType.Some? ==>
      && r.Instance? && fresh(r.obj)
      && r.obj.fields == Hydrated(classType.value.defaults, Enumerable(parsed))
  {
    if classType.Some? {
      var obj := new JsObject(classType.value.defaults);
      obj := Hydrate(obj, Enumerable(parsed));
      return Instance(obj);
    }
    return Plain(parsed);
  }

  /** A typed deserialization keeps the type's properties, takes the data's
      values for them, and drops the data's other members. */
  method DeserializeDropsUnknown(id: string, extra: Value)
    returns (fields: map<string, Value>)
    ensures fields == map["id" := Str(id), "done" := Bool(false)]
  {
    var toDo := ClassType("ToDo", map["id" := Str(""), "done" := Bool(false)]);
    var parsed := Obj(map["id" := Str(id), "extra" := extra]);
    var r := Deserialize(parsed, Some(toDo));
    fields := r.obj.fields;
    assert fields.Keys == {"id", "done"};
  }

  /** A typed deserialization of an array or a string finds no property of a
      type whose properties are not index keys. */
  method DeserializeNonObject(parsed: Value, classType: ClassType)
    returns (fields: map<string, Value>)
    requires !parsed.Obj?
    requires forall i: nat :: NatToString(i) !in classType.defaults
    ensures fields == classType.defaults
  {
    var r := Deserialize(parsed, Some(classType));
    fields := r.obj.fields;
    if parsed.Arr? || parsed.Str? {
      assert forall k :: k in Enumerable(parsed) ==> k !in classType.defaults by {
        forall k | k in Enumerable(parsed) ensures k !in classType.defaults {
          EnumerableKeys(parsed, k);
        }
      }
    }
  }

  /** Every key enumerated over an array or a string is an index key. */
  lemma EnumerableKeys(v: Value, k: string)
    requires v.Arr? || v.Str?
    requires k in Enumerable(v)
    ensures exists i: nat :: k == NatToString(i)
  {
    match v
    case Arr(items) => IndexedKeys(items, k);
    case Str(text) => IndexedKeys(seq(|text|, i requires 0 <= i < |text| => Str([text[i]])), k);
  }
}
