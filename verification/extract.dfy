/**
 * Path extraction (src/lib/extract.js): a path such as
 * `$.detail.build-status` is checked for its leading `$`, split on `.`,
 * stripped of its first segment, and the remaining keys are walked down the
 * event with lodash `get`.
 */
module Extract {
  import opened JsValues
  import Text

  predicate StartsWithDollar(path: string)
  {
    |path| > 0 && path[0] == '$'
  }

  /** The keys a path walks: its `.`-segments without the first one. */
  function PathKeys(path: string): seq<string>
  {
    Text.Split(path, '.')[1..]
  }

  /** The `$`-path that walks exactly `keys`. */
  function DollarPath(keys: seq<string>): string
  {
    Text.Join(["$"] + keys, '.')
  }

  /** The loop of lodash `baseGet`: each step reads a key of an object;
      reaching null or any non-object before the keys run out gives
      undefined. */
  function Walk(j: Json, keys: seq<string>): Option<Json>
    decreases |keys|
  {
    if |keys| == 0 then Some(j)
    else
      match j
      case Obj(es) =>
        (match Lookup(es, keys[0])
         case None => None
         case Some(v) => Walk(v, keys[1..]))
      case _ => None
  }

  /** lodash `get(obj, keys)` for an array of keys; an empty array of keys
      yields undefined. */
  function Get(obj: Json, keys: seq<string>): (r: Option<Json>)
    ensures |keys| == 0 ==> r.None?
  {
    if |keys| == 0 then None else Walk(obj, keys)
  }

  /** `extractValue(obj, path)`: the missing `$` is the only failure; every
      `$`-path yields a value or undefined. */
  function ExtractValue(obj: Json, path: string): (r: Result<Option<Json>>)
    ensures r.Err? <==> !StartsWithDollar(path)
    ensures r.Err? ==> r.error == MissingDollar(path)
  {
    if !StartsWithDollar(path) then Err(MissingDollar(path))
    else Ok(Get(obj, PathKeys(path)))
  }

  /** Plain JavaScript property reads `v[k1][k2]…[kn]`, which throw on a
      read of a property of null or undefined. */
  function MemberChain(v: Option<Json>, keys: seq<string>): Result<Option<Json>>
    decreases |keys|
  {
    if |keys| == 0 then Ok(v)
    else
      var next :- Member(v, keys[0]);
      MemberChain(next, keys[1..])
  }

  /** Reading a chain of properties off undefined throws unless the chain is
      empty. */
  lemma {:induction false} MemberChainOfUndefined(keys: seq<string>)
    ensures MemberChain(None, keys) == if |keys| == 0 then Ok(None) else Err(TypeError)
  {
  }

  /** The key walk agrees with plain property reads wherever those succeed,
      and gives undefined wherever those would throw. */
  lemma {:induction false} WalkIsMemberChain(j: Json, keys: seq<string>)
    ensures Walk(j, keys) == (var c := MemberChain(Some(j), keys); if c.Ok? then c.value else None)
    decreases |keys|
  {
    if |keys| > 0 {
      match j
      case Obj(es) => {
        match Lookup(es, keys[0])
        case None => MemberChainOfUndefined(keys[1..]);
        case Some(v) => WalkIsMemberChain(v, keys[1..]);
      }
      case Null =>
      case _ => MemberChainOfUndefined(keys[1..]);
    }
  }

  /** `$.k1.….kn` over an existing chain gives exactly `obj[k1]…[kn]`; where
      a key is missing or an intermediate is not an object, extraction gives
      undefined instead of throwing. */
  lemma ExtractFollowsKeyChain(obj: Json, keys: seq<string>)
    requires |keys| >= 1
    requires forall i :: 0 <= i < |keys| ==> '.' !in keys[i]
    ensures MemberChain(Some(obj), keys).Ok? ==> ExtractValue(obj, DollarPath(keys)) == MemberChain(Some(obj), keys)
    ensures MemberChain(Some(obj), keys).Err? ==> ExtractValue(obj, DollarPath(keys)) == Ok(None)
  {
    var parts := ["$"] + keys;
    assert forall i :: 0 <= i < |parts| ==> '.' !in parts[i] by {
      forall i | 0 <= i < |parts| ensures '.' !in parts[i] {
        if i > 0 { assert parts[i] == keys[i - 1]; }
      }
    }
    Text.SplitJoin(parts, '.');
    assert PathKeys(DollarPath(keys)) == keys;
    assert DollarPath(keys) == "$" + ['.'] + Text.Join(keys, '.');
    WalkIsMemberChain(obj, keys);
  }

  /** The first segment is dropped whatever follows the `$`: `$x.rest` and
      `$.rest` resolve identically. */
  lemma FirstSegmentIgnored(obj: Json, x: string, rest: string)
    requires '.' !in x
    ensures ExtractValue(obj, "$" + x + "." + rest) == ExtractValue(obj, "$." + rest)
  {
    assert '.' !in "$" + x;
    Text.SplitAround("$" + x, rest, '.');
    Text.SplitAround("$", rest, '.');
    Text.SplitNoSep("$" + x, '.');
    Text.SplitNoSep("$", '.');
    assert "$" + x + "." + rest == ("$" + x) + ['.'] + rest;
    assert "$." + rest == "$" + ['.'] + rest;
  }

  /** A path that is `$` alone walks no keys, and lodash `get` with no keys
      gives undefined, not the event. */
  lemma BareDollarIsUndefined(obj: Json)
    ensures ExtractValue(obj, "$") == Ok(None)
  {
    Text.SplitNoSep("$", '.');
  }
}
