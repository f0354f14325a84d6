/** The JavaScript data the jobs core handles: scalar values, plain objects
    (key/value pairs in insertion order), and the error kinds it throws. */
module JsValues {

  datatype Option<+T> = None | Some(value: T)

  /** A scalar JavaScript value. Numbers are exact reals: floating-point
      rounding and NaN are not modelled. */
  datatype Value = Undefined | Null | Bool(b: bool) | Num(x: real) | Str(s: string)

  /** JavaScript truthiness (`!v` is false exactly for these values). */
  predicate Truthy(v: Value) {
    match v
    case Undefined => false
    case Null => false
    case Bool(b) => b
    case Num(x) => x != 0.0
    case Str(s) => s != ""
  }

  /** `v != undefined` with JavaScript's loose equality: false exactly for
      `undefined` and `null`. */
  predicate NotNullish(v: Value) {
    !v.Undefined? && !v.Null?
  }

  /** One own property of a plain object. */
  datatype Entry = Entry(key: string, value: Value)

  /** A plain object as its own properties in `Object.keys` order. */
  type Obj = seq<Entry>

  /** Keys of a plain object are distinct. */
  predicate DistinctKeys(o: Obj) {
    forall i, j :: 0 <= i < j < |o| ==> o[i].key != o[j].key
  }

  /** `Object.keys(o)`. */
  function Keys(o: Obj): seq<string> {
    seq(|o|, i requires 0 <= i < |o| => o[i].key)
  }

  /** `Object.values(o)`. */
  function Values(o: Obj): seq<Value> {
    seq(|o|, i requires 0 <= i < |o| => o[i].value)
  }

  predicate HasKey(o: Obj, key: string) {
    exists i :: 0 <= i < |o| && o[i].key == key
  }

  /** The property read `o[key]`: `undefined` when the key is absent. */
  function Property(o: Obj, key: string): (v: Value)
    ensures !HasKey(o, key) ==> v == Undefined
    ensures HasKey(o, key) ==> exists i :: 0 <= i < |o| && o[i].key == key && o[i].value == v
  {
    if o == [] then Undefined
    else if o[0].key == key then o[0].value
    else Property(o[1..], key)
  }

  /** The assignment `o[key] = v` on a key that the object already has:
      the property keeps its place in key order. */
  function Assign(o: Obj, key: string, v: Value): (o': Obj)
    requires HasKey(o, key)
    ensures |o'| == |o| && Keys(o') == Keys(o)
  {
    seq(|o|, i requires 0 <= i < |o| => if o[i].key == key then Entry(key, v) else o[i])
  }

  /** After `o[key] = v` on a key the object has, reading the key gives `v`
      and every other property is as it was. */
  lemma {:induction false} AssignEffect(o: Obj, key: string, v: Value)
    requires HasKey(o, key)
    ensures Property(Assign(o, key, v), key) == v
    ensures forall i :: 0 <= i < |o| && o[i].key != key ==> Assign(o, key, v)[i] == o[i]
  {
    var o' := Assign(o, key, v);
    var i :| 0 <= i < |o| && o[i].key == key;
    assert o'[i].key == key;
    var j :| 0 <= j < |o'| && o'[j].key == key && o'[j].value == Property(o', key);
    assert o'[j] == Entry(key, v);
  }

  /** `delete o[key]`: the object without that property, the others in order. */
  function Remove(o: Obj, key: string): Obj {
    if o == [] then []
    else (if o[0].key == key then [] else [o[0]]) + Remove(o[1..], key)
  }

  /** After `delete o[key]` the object has no such key. */
  lemma {:induction false} RemoveDropsKey(o: Obj, key: string)
    ensures !HasKey(Remove(o, key), key)
  {
    if o != [] {
      RemoveDropsKey(o[1..], key);
      var head: Obj := if o[0].key == key then [] else [o[0]];
      var tail := Remove(o[1..], key);
      assert Remove(o, key) == head + tail;
      forall i | 0 <= i < |head + tail| ensures (head + tail)[i].key != key {
        if i >= |head| { assert (head + tail)[i] == tail[i - |head|]; }
      }
    }
  }

  /** Deleting a key the object does not have leaves it unchanged. */
  lemma {:induction false} RemoveAbsentKey(o: Obj, key: string)
    requires !HasKey(o, key)
    ensures Remove(o, key) == o
  {
    if o != [] {
      assert o[0].key != key;
      forall i | 0 <= i < |o[1..]| ensures o[1..][i].key != key {
        assert o[1..][i] == o[i + 1];
      }
      RemoveAbsentKey(o[1..], key);
    }
  }

  /** The error classes of the application: `BadRequestError` and
      `NotFoundError`, each with its message, and a query the backing store
      rejects. */
  datatype Error = BadRequest(message: string) | NotFound(message: string) | QueryFailed

  datatype Result<+T> = Ok(value: T) | Err(error: Error)
}
