/**
 * Match-rule evaluation (src/lib/match.js): a rule object maps `$`-paths to
 * lists of allowed values; it holds when every path's extracted value is in
 * its list. The loop visits every entry even after a mismatch, so a
 * malformed entry anywhere in the rule throws.
 */
module Match {
  import opened JsValues
  import Extract

  /** `list.includes(v)`: SameValueZero, under which an object or array
      read from the event never equals a value from the configuration, and
      undefined is never in a JSON list. */
  function Includes(list: seq<Json>, v: Option<Json>): (r: bool)
    ensures r <==> v.Some? && IsPrimitive(v.value) && v.value in list
  {
    if |list| == 0 then false
    else (v.Some? && IsPrimitive(v.value) && list[0] == v.value) || Includes(list[1..], v)
  }

  /** One turn of the loop, for the entry `path: values`, in the source's
      evaluation order: the bare-string check, then the read of
      `values.includes` (throws on null), then the argument `extractValue`
      (throws on a missing `$`), then the call (throws unless `values` is an
      array). */
  function CheckEntry(path: string, values: Json, payload: Json): (r: Result<bool>)
    ensures r.Ok? <==> values.Arr? && Extract.StartsWithDollar(path)
    ensures values.Str? ==> r == Err(NotWrapped(values.s))
    ensures values.Arr? && !Extract.StartsWithDollar(path) ==> r == Err(MissingDollar(path))
    ensures r.Ok? ==> (r.value <==> exists x :: Extract.ExtractValue(payload, path) == Ok(Some(x))
                                                && IsPrimitive(x) && x in values.items)
  {
    match values
    case Str(s) => Err(NotWrapped(s))
    case Null => Err(TypeError)
    case Arr(items) =>
      var v := Extract.ExtractValue(payload, path);
      if v.Err? then Err(v.error) else Ok(Includes(items, v.value))
    case _ =>
      var v := Extract.ExtractValue(payload, path);
      if v.Err? then Err(v.error) else Err(TypeError)
  }

  /** The loop over the entries: every entry is checked, the result is the
      conjunction, and the first entry that throws decides the error. */
  function MatchEntries(es: seq<(string, Json)>, payload: Json): (r: Result<bool>)
    ensures r.Ok? <==> forall i :: 0 <= i < |es| ==> CheckEntry(es[i].0, es[i].1, payload).Ok?
    ensures r.Ok? ==> (r.value <==> forall i :: 0 <= i < |es| ==> CheckEntry(es[i].0, es[i].1, payload).value)
    ensures r.Err? ==> exists i :: 0 <= i < |es| && CheckEntry(es[i].0, es[i].1, payload) == Err(r.error)
                                   && forall j :: 0 <= j < i ==> CheckEntry(es[j].0, es[j].1, payload).Ok?
  {
    if |es| == 0 then Ok(true)
    else
      var ok :- CheckEntry(es[0].0, es[0].1, payload);
      var rest :- MatchEntries(es[1..], payload);
      Ok(ok && rest)
  }

  /** `matchRulesWithPayload(matchConfig, payload)`; `matchConfig` may be
      undefined (a candidate without a `match` field), which iterates
      nothing. */
  function MatchRules(matchConfig: Option<Json>, payload: Json): (r: Result<bool>)
    ensures matchConfig.None? ==> r == Ok(true)
    ensures r.Ok? <==> WellFormedRules(OwnEntries(matchConfig))
    ensures r.Ok? ==> (r.value <==> forall i :: 0 <= i < |OwnEntries(matchConfig)| ==>
                                      EntryHolds(OwnEntries(matchConfig)[i].0, OwnEntries(matchConfig)[i].1, payload))
  {
    MatchEntries(OwnEntries(matchConfig), payload)
  }

  /** Every value is a list and every key a `$`-path. */
  predicate WellFormedRules(es: seq<(string, Json)>)
  {
    forall i :: 0 <= i < |es| ==> es[i].1.Arr? && Extract.StartsWithDollar(es[i].0)
  }

  /** The value a rule's path reads from the payload is one of its allowed
      values. */
  predicate EntryHolds(path: string, values: Json, payload: Json)
  {
    && values.Arr?
    && exists x :: Extract.ExtractValue(payload, path) == Ok(Some(x)) && IsPrimitive(x) && x in values.items
  }

  /** A rule object raises exactly when it is malformed, and otherwise holds
      iff every path's extracted value is an element of that path's list. */
  lemma MatchIsConjunction(es: seq<(string, Json)>, payload: Json)
    ensures MatchRules(Some(Obj(es)), payload).Ok? <==> WellFormedRules(es)
    ensures WellFormedRules(es) ==>
      (MatchRules(Some(Obj(es)), payload).value <==> forall i :: 0 <= i < |es| ==> EntryHolds(es[i].0, es[i].1, payload))
  {
  }

  /** An empty rule object, and an absent one, match every payload. */
  lemma EmptyRulesMatch(payload: Json)
    ensures MatchRules(Some(Obj([])), payload) == Ok(true)
    ensures MatchRules(None, payload) == Ok(true)
  {
  }

  /** A bare-string value list raises even when an earlier entry has already
      failed to match: the loop does not stop on a mismatch. */
  lemma BareStringRaisesAfterMismatch(es: seq<(string, Json)>, k: nat, payload: Json)
    requires k < |es| && es[k].1.Str?
    requires WellFormedRules(es[..k])
    ensures MatchRules(Some(Obj(es)), payload) == Err(NotWrapped(es[k].1.s))
  {
    forall j | 0 <= j < k ensures CheckEntry(es[j].0, es[j].1, payload).Ok? {
      assert es[..k][j] == es[j];
    }
    FirstErrorDecides(es, k, payload);
  }

  /** A key without the leading `$` raises through extraction. */
  lemma KeyWithoutDollarRaises(es: seq<(string, Json)>, k: nat, payload: Json)
    requires k < |es| && es[k].1.Arr? && !Extract.StartsWithDollar(es[k].0)
    requires WellFormedRules(es[..k])
    ensures MatchRules(Some(Obj(es)), payload) == Err(MissingDollar(es[k].0))
  {
    forall j | 0 <= j < k ensures CheckEntry(es[j].0, es[j].1, payload).Ok? {
      assert es[..k][j] == es[j];
    }
    FirstErrorDecides(es, k, payload);
  }

  /** When the entries before `k` are all fine, entry `k`'s error is the
      error of the whole loop. */
  lemma FirstErrorDecides(es: seq<(string, Json)>, k: nat, payload: Json)
    requires k < |es| && CheckEntry(es[k].0, es[k].1, payload).Err?
    requires forall j :: 0 <= j < k ==> CheckEntry(es[j].0, es[j].1, payload).Ok?
    ensures MatchEntries(es, payload) == Err(CheckEntry(es[k].0, es[k].1, payload).error)
  {
    var e := MatchEntries(es, payload).error;
    var i :| 0 <= i < |es| && CheckEntry(es[i].0, es[i].1, payload) == Err(e)
             && forall j :: 0 <= j < i ==> CheckEntry(es[j].0, es[j].1, payload).Ok?;
    assert i == k;
  }

  /** A well-formed rule whose path does not resolve in the payload makes
      the whole rule false. */
  lemma UnresolvedPathFails(es: seq<(string, Json)>, k: nat, payload: Json)
    requires WellFormedRules(es)
    requires k < |es| && Extract.ExtractValue(payload, es[k].0) == Ok(None)
    ensures MatchRules(Some(Obj(es)), payload) == Ok(false)
  {
    assert !CheckEntry(es[k].0, es[k].1, payload).value;
  }
}
