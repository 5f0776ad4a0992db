/**
 * The JavaScript values the engine handles: parsed JSON (events and
 * configuration), `undefined` as `None`, the exceptions the engine throws,
 * and the few language operations the source relies on: property reads,
 * `hasOwnProperty`, lodash `forOwn` iteration and `String(v)`.
 */
module JsValues {
  import Text

  datatype Option<+T> = None | Some(value: T)

  /** The exceptions the engine can throw. */
  datatype Error =
    | MissingDollar(path: string)     // a path without the leading `$`
    | NotWrapped(value: string)       // a match-rule value that is a bare string
    | InvalidVariableDefinition       // a variable definition of the wrong type
    | TypeError                       // a read of a property of null/undefined, or a call of a non-function
    | SyntaxError                     // `JSON.parse` of the text of `undefined`

  /** A value, or the exception that aborted its computation. */
  datatype Result<+T> = Ok(value: T) | Err(error: Error) {
    predicate IsFailure() { Err? }

    function PropagateFailure<U>(): Result<U>
      requires Err?
    {
      Err(error)
    }

    function Extract(): T
      requires Ok?
    {
      value
    }
  }

  /** A parsed JSON value. Object entries keep their insertion order, the
      order in which lodash `forOwn` visits them. */
  datatype Json =
    | Null
    | Bool(b: bool)
    | Num(n: int)
    | Str(s: string)
    | Arr(items: seq<Json>)
    | Obj(entries: seq<(string, Json)>)

  /** Values that JavaScript compares by value rather than by identity. */
  predicate IsPrimitive(j: Json)
  {
    !j.Arr? && !j.Obj?
  }

  /** The value stored under `key`, reading the first entry with that key. */
  function Lookup<V>(es: seq<(string, V)>, key: string): (r: Option<V>)
    ensures r.None? <==> forall i :: 0 <= i < |es| ==> es[i].0 != key
    ensures r.Some? ==> (key, r.value) in es
  {
    if |es| == 0 then None
    else if es[0].0 == key then Some(es[0].1)
    else
      var r := Lookup(es[1..], key);
      assert forall i :: 1 <= i < |es| ==> es[i] == es[1..][i - 1];
      r
  }

  /** `receiver[key]`: reading a property of null or undefined throws, an
      object yields its entry, and other values have no own data
      properties. */
  function Member(receiver: Option<Json>, key: string): (r: Result<Option<Json>>)
    ensures r.Err? <==> receiver.None? || receiver.value.Null?
    ensures r.Err? ==> r.error == TypeError
    ensures r.Ok? && r.value.Some? ==> receiver.value.Obj? && (key, r.value.value) in receiver.value.entries
  {
    match receiver
    case None => Err(TypeError)
    case Some(Null) => Err(TypeError)
    case Some(Obj(es)) => Ok(Lookup(es, key))
    case Some(_) => Ok(None)
  }

  /** The property names of the indices `0 .. n-1` of an array or string. */
  function IndexKeys(n: nat): seq<string>
  {
    seq(n, i requires 0 <= i < n => Text.NatToString(i))
  }

  /** `Object.prototype.hasOwnProperty.call(j, key)`. */
  function HasOwn(j: Json, key: string): (r: Result<bool>)
    ensures r.Err? <==> j.Null?
    ensures j.Obj? ==> r == Ok(Lookup(j.entries, key).Some?)
  {
    match j
    case Null => Err(TypeError)
    case Obj(es) => Ok(Lookup(es, key).Some?)
    case Arr(xs) => Ok(key == "length" || key in IndexKeys(|xs|))
    case Str(s) => Ok(key == "length" || key in IndexKeys(|s|))
    case _ => Ok(false)
  }

  /** The (key, value) pairs lodash `forOwn` visits: an object's entries,
      the indexed elements of an array or the characters of a string, and
      nothing for `undefined`, `null`, numbers and booleans. */
  function OwnEntries(v: Option<Json>): (r: seq<(string, Json)>)
    ensures v.Some? && v.value.Obj? ==> r == v.value.entries
    ensures v.Some? && v.value.Arr? ==> |r| == |v.value.items|
                                        && forall i :: 0 <= i < |r| ==> r[i].1 == v.value.items[i]
    ensures v.None? || (v.Some? && (v.value.Null? || v.value.Bool? || v.value.Num?)) ==> r == []
  {
    match v
    case Some(Obj(es)) => es
    case Some(Arr(xs)) => seq(|xs|, i requires 0 <= i < |xs| => (Text.NatToString(i), xs[i]))
    case Some(Str(s)) => seq(|s|, i requires 0 <= i < |s| => (Text.NatToString(i), Str([s[i]])))
    case _ => []
  }

  /** The values of a sequence of entries, in order. */
  function EntryValues(es: seq<(string, Json)>): (r: seq<Json>)
    ensures |r| == |es| && forall i :: 0 <= i < |es| ==> r[i] == es[i].1
  {
    seq(|es|, i requires 0 <= i < |es| => es[i].1)
  }

  /** `String(v)`, the conversion a template literal or a `replace`
      callback's result goes through. */
  function ToStr(v: Option<Json>): (r: string)
    ensures v.Some? && v.value.Str? ==> r == v.value.s
    ensures v.None? ==> r == "undefined"
  {
    match v
    case None => "undefined"
    case Some(j) => JsonToStr(j)
  }

  function JsonToStr(j: Json): string
    decreases j
  {
    match j
    case Null => "null"
    case Bool(b) => if b then "true" else "false"
    case Num(n) => Text.IntToString(n)
    case Str(s) => s
    case Arr(xs) => JoinItems(xs)
    case Obj(_) => "[object Object]"
  }

  /** `Array.prototype.join` with `,`: null elements become empty text. */
  function JoinItems(xs: seq<Json>): string
    decreases xs
  {
    if |xs| == 0 then ""
    else
      var first := if xs[0].Null? then "" else JsonToStr(xs[0]);
      if |xs| == 1 then first else first + "," + JoinItems(xs[1..])
  }
}
