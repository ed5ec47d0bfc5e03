/** Decoded JSON values as Python's `json` module hands them to the collector,
    the truthiness test `if x:` / `not x`, and the `dict.get` lookups the
    collector chains on every response. An exception raised while evaluating a
    Python expression is the value `Raised` of `Try`. */
module PyJson {

  /** A decoded JSON document. An object keeps its members in document order
      (Python dicts iterate in insertion order); Python's `None` is `JNull`. */
  datatype Json =
    | JNull
    | JBool(b: bool)
    | JInt(n: int)
    | JStr(s: string)
    | JArr(items: seq<Json>)
    | JObj(members: seq<(string, Json)>)

  datatype Option<T> = None | Some(value: T)

  /** The outcome of a Python expression: a value, or an exception that was
      raised (of any class: the collector catches them all alike). */
  datatype Try<T> = Ok(value: T) | Raised {
    predicate IsFailure() { Raised? }

    function PropagateFailure<U>(): Try<U>
      requires Raised?
    {
      Raised
    }

    function Extract(): T
      requires Ok?
    {
      value
    }
  }

  /** An HTTP exchange whose body has already been decoded. `Failed` stands for
      a transport error, a timeout, a non-2xx status rejected by
      `raise_for_status`, or a body that is not JSON. */
  datatype Fetch = Failed | Body(data: Json)

  const EmptyObj: Json := JObj([])

  /** Python's truth value of a decoded JSON value. */
  predicate Truthy(j: Json) {
    match j
    case JNull => false
    case JBool(b) => b
    case JInt(n) => n != 0
    case JStr(s) => s != ""
    case JArr(xs) => xs != []
    case JObj(ms) => ms != []
  }

  /** Python's truth value of an `Optional[str]`: `None` and `""` are false. */
  predicate Present(d: Option<string>) {
    d.Some? && d.value != ""
  }

  /** The value stored under `key`, found by scanning the members in order. */
  function Lookup(ms: seq<(string, Json)>, key: string): (r: Option<Json>)
    ensures r.None? <==> forall i :: 0 <= i < |ms| ==> ms[i].0 != key
    ensures r.Some? ==> exists i :: 0 <= i < |ms| && ms[i] == (key, r.value) &&
                                   forall j :: 0 <= j < i ==> ms[j].0 != key
  {
    if ms == [] then None
    else if ms[0].0 == key then Some(ms[0].1)
    else
      var r := Lookup(ms[1..], key);
      assert r.Some? ==> exists i :: 0 < i < |ms| && ms[i] == (key, r.value) &&
                                     forall j :: 0 <= j < i ==> ms[j].0 != key by {
        if r.Some? {
          var i :| 0 <= i < |ms[1..]| && ms[1..][i] == (key, r.value) &&
                   forall j :: 0 <= j < i ==> ms[1..][j].0 != key;
          assert ms[i + 1] == (key, r.value);
          assert forall j :: 0 <= j < i + 1 ==> ms[j].0 != key by {
            forall j | 0 <= j < i + 1 ensures ms[j].0 != key {
              if j > 0 { assert ms[j] == ms[1..][j - 1]; }
            }
          }
        }
      }
      r
  }

  /** `obj.get(key, default)` with a string key: only a dict has `get`; any
      other value raises AttributeError. */
  function Get(obj: Json, key: string, default: Json): (r: Try<Json>)
    ensures r.Raised? <==> !obj.JObj?
    ensures obj.JObj? && Lookup(obj.members, key).None? ==> r == Ok(default)
    ensures obj.JObj? && Lookup(obj.members, key).Some? ==>
              r == Ok(Lookup(obj.members, key).value)
  {
    match obj
    case JObj(ms) => Ok(match Lookup(ms, key) case Some(v) => v case None => default)
    case _ => Raised
  }

  /** `obj.get(key, default)` where the key is itself a decoded value. A list
      or dict is unhashable (TypeError); `None`, a bool or a number never
      equals the string keys a JSON object has. */
  function GetByValue(obj: Json, key: Json, default: Json): (r: Try<Json>)
    ensures key.JStr? ==> r == Get(obj, key.s, default)
    ensures key.JArr? || key.JObj? || !obj.JObj? ==> r.Raised?
    ensures obj.JObj? && (key.JNull? || key.JBool? || key.JInt?) ==> r == Ok(default)
  {
    if !obj.JObj? then Raised
    else
      match key
      case JStr(s) => Get(obj, s, default)
      case JArr(_) => Raised
      case JObj(_) => Raised
      case _ => Ok(default)
  }

  /** `xs[0]` on a value already known to be truthy: a list yields its head;
      a string's first character has no `get` and a dict has no key `0`, so
      the caller's next step raises anyway; a number or bool is not
      subscriptable. */
  function First(xs: Json): (r: Try<Json>)
    ensures r.Ok? <==> xs.JArr? && xs.items != []
    ensures r.Ok? ==> r.value == xs.items[0]
  {
    match xs
    case JArr(items) => if items == [] then Raised else Ok(items[0])
    case _ => Raised
  }
}
