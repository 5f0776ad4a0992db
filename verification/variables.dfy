/**
 * Variable creation (src/lib/create_variables.js): each entry of a
 * notification's `variables` object becomes one variable. A string
 * definition is a `$`-path whose extracted value is stored as is (undefined
 * included); an object definition is a rule table whose first candidate key,
 * in iteration order, with matching rules becomes the value, `''` when none
 * matches; any other definition type throws.
 */
module Variables {
  import opened JsValues
  import Extract
  import Match

  /** The variables object: names in insertion order, each with the stored
      JavaScript value (`None` is undefined). */
  type Vars = seq<(string, Option<Json>)>

  /** `match(rule.match, payload)` for one candidate of a rule table. Reading
      `match` off a null candidate throws; a candidate without a `match`
      field, or one that is not an object, has no rules to fail and so
      matches. */
  function CandidateMatches(rule: Json, payload: Json): (r: Result<bool>)
    ensures rule.Null? ==> r == Err(TypeError)
    ensures !rule.Null? && !(rule.Obj? && Lookup(rule.entries, "match").Some?) ==> r == Ok(true)
    ensures rule.Obj? && Lookup(rule.entries, "match").Some? ==>
              r == Match.MatchRules(Lookup(rule.entries, "match"), payload)
  {
    var rules :- Member(Some(rule), "match");
    Match.MatchRules(rules, payload)
  }

  /** The candidate test of a rule table, for one payload. */
  function CandidateTest(payload: Json): Json -> Result<bool>
  {
    rule => CandidateMatches(rule, payload)
  }

  /** No candidate of the table passes the test, and none raises. */
  predicate NoCandidateMatches(cands: seq<(string, Json)>, test: Json -> Result<bool>)
  {
    forall i :: 0 <= i < |cands| ==> test(cands[i].1) == Ok(false)
  }

  /** Candidate `i` is the first that passes the test, the ones before it
      failing it without raising. */
  predicate FirstMatchAt(cands: seq<(string, Json)>, i: int, test: Json -> Result<bool>)
  {
    && 0 <= i < |cands|
    && test(cands[i].1) == Ok(true)
    && forall j :: 0 <= j < i ==> test(cands[j].1) == Ok(false)
  }

  /** Candidate `i` is the first that raises `e`, the ones before it failing
      the test without raising. */
  predicate FirstErrorAt(cands: seq<(string, Json)>, i: int, test: Json -> Result<bool>, e: Error)
  {
    && 0 <= i < |cands|
    && test(cands[i].1) == Err(e)
    && forall j :: 0 <= j < i ==> test(cands[j].1) == Ok(false)
  }

  /** The inner `forOwn` over a rule table: the key of the first candidate
      whose rules hold, `''` when none does; the loop stops at the first
      match, so later candidates are never evaluated. */
  function FirstCandidate(cands: seq<(string, Json)>, payload: Json): (r: Result<string>)
    ensures NoCandidateMatches(cands, CandidateTest(payload)) ==> r == Ok("")
    ensures r.Ok? && !NoCandidateMatches(cands, CandidateTest(payload)) ==>
              exists i :: FirstMatchAt(cands, i, CandidateTest(payload)) && cands[i].0 == r.value
    ensures r.Err? ==> exists i :: FirstErrorAt(cands, i, CandidateTest(payload), r.error)
  {
    if |cands| == 0 then Ok("")
    else
      var m := CandidateMatches(cands[0].1, payload);
      if m.Err? then
        assert FirstErrorAt(cands, 0, CandidateTest(payload), m.error);
        Err(m.error)
      else if m.value then
        assert FirstMatchAt(cands, 0, CandidateTest(payload));
        Ok(cands[0].0)
      else
        var r := FirstCandidate(cands[1..], payload);
        SkipNonMatching(cands, CandidateTest(payload));
        r
  }

  /** Past a first candidate that fails the test, positions in the rest of
      the table are positions in the table shifted by one. */
  lemma SkipNonMatching(cands: seq<(string, Json)>, test: Json -> Result<bool>)
    requires |cands| > 0 && test(cands[0].1) == Ok(false)
    ensures NoCandidateMatches(cands, test) <==> NoCandidateMatches(cands[1..], test)
    ensures forall i :: FirstMatchAt(cands[1..], i, test) ==> FirstMatchAt(cands, i + 1, test)
    ensures forall i, e :: FirstErrorAt(cands[1..], i, test, e) ==> FirstErrorAt(cands, i + 1, test, e)
  {
    assert forall j :: 1 <= j < |cands| ==> cands[j] == cands[1..][j - 1];
  }

  /** One definition: a string is extracted without coercion; an object
      (and, by `typeof`, null or an array) is a rule table whose value is a
      string; a number or boolean throws. */
  function ResolveDefinition(def: Json, payload: Json): (r: Result<Option<Json>>)
    ensures def.Str? ==> r == Extract.ExtractValue(payload, def.s)
    ensures def.Num? || def.Bool? ==> r == Err(InvalidVariableDefinition)
    ensures (def.Obj? || def.Arr? || def.Null?) && r.Ok? ==> r.value.Some? && r.value.value.Str?
    ensures def.Obj? || def.Arr? || def.Null? ==>
              var c := FirstCandidate(OwnEntries(Some(def)), payload);
              r == if c.Ok? then Ok(Some(Str(c.value))) else Err(c.error)
  {
    match def
    case Str(path) => Extract.ExtractValue(payload, path)
    case Num(_) => Err(InvalidVariableDefinition)
    case Bool(_) => Err(InvalidVariableDefinition)
    // `forOwn` over null visits nothing, so no candidate can match.
    case Null => Ok(Some(Str("")))
    case _ =>
      var v :- FirstCandidate(OwnEntries(Some(def)), payload);
      Ok(Some(Str(v)))
  }

  /** The outer `forOwn`: one variable per definition, in order; the first
      definition that throws aborts the whole creation. */
  function ResolveAll(defs: seq<(string, Json)>, payload: Json): (r: Result<Vars>)
    ensures r.Ok? <==> forall i :: 0 <= i < |defs| ==> ResolveDefinition(defs[i].1, payload).Ok?
    ensures r.Ok? ==> |r.value| == |defs|
                      && forall i :: 0 <= i < |defs| ==>
                           r.value[i].0 == defs[i].0 && ResolveDefinition(defs[i].1, payload) == Ok(r.value[i].1)
    ensures r.Err? ==>
      exists i :: 0 <= i < |defs| && ResolveDefinition(defs[i].1, payload) == Err(r.error)
                  && forall j :: 0 <= j < i ==> ResolveDefinition(defs[j].1, payload).Ok?
  {
    if |defs| == 0 then Ok([])
    else
      var v :- ResolveDefinition(defs[0].1, payload);
      var rest :- ResolveAll(defs[1..], payload);
      Ok([(defs[0].0, v)] + rest)
  }

  /** `createVariablesFromPayload(variablesConfig, payload)`; a notification
      without `variables` passes undefined, which yields no variables. */
  function CreateVariables(variablesConfig: Option<Json>, payload: Json): (r: Result<Vars>)
    ensures variablesConfig.None? ==> r == Ok([])
    ensures r.Ok? <==> forall i :: 0 <= i < |OwnEntries(variablesConfig)| ==>
                         ResolveDefinition(OwnEntries(variablesConfig)[i].1, payload).Ok?
    ensures r.Ok? ==> |r.value| == |OwnEntries(variablesConfig)|
                      && forall i :: 0 <= i < |r.value| ==>
                           r.value[i].0 == OwnEntries(variablesConfig)[i].0
                           && ResolveDefinition(OwnEntries(variablesConfig)[i].1, payload) == Ok(r.value[i].1)
    ensures var ds := OwnEntries(variablesConfig);
            r.Err? ==> exists i :: 0 <= i < |ds| && ResolveDefinition(ds[i].1, payload) == Err(r.error)
                                   && forall j :: 0 <= j < i ==> ResolveDefinition(ds[j].1, payload).Ok?
  {
    ResolveAll(OwnEntries(variablesConfig), payload)
  }

  /** The created variables have exactly the names of the configuration's
      entries, in order. */
  lemma CreatedNamesAreConfigured(config: seq<(string, Json)>, payload: Json)
    requires CreateVariables(Some(Obj(config)), payload).Ok?
    ensures var vs := CreateVariables(Some(Obj(config)), payload).value;
            |vs| == |config| && forall i :: 0 <= i < |vs| ==> vs[i].0 == config[i].0
  {
  }

  /** A path definition whose path does not resolve stores undefined, not
      the empty string. */
  lemma UnresolvedPathStaysUndefined(path: string, payload: Json)
    requires Extract.ExtractValue(payload, path) == Ok(None)
    ensures ResolveDefinition(Str(path), payload) == Ok(None)
  {
  }

  /** A rule table in which no candidate matches gives `''` without
      raising. */
  lemma UnmatchedTableIsEmptyString(cands: seq<(string, Json)>, payload: Json)
    requires NoCandidateMatches(cands, CandidateTest(payload))
    ensures ResolveDefinition(Obj(cands), payload) == Ok(Some(Str("")))
  {
  }

  /** The first matching candidate wins even when later ones match too, and
      a later malformed candidate is then never evaluated. */
  lemma FirstMatchingCandidateWins(cands: seq<(string, Json)>, k: nat, payload: Json)
    requires FirstMatchAt(cands, k, CandidateTest(payload))
    ensures FirstCandidate(cands, payload) == Ok(cands[k].0)
  {
    var test := CandidateTest(payload);
    var r := FirstCandidate(cands, payload);
    assert !NoCandidateMatches(cands, test) by { assert test(cands[k].1) == Ok(true); }
    if r.Err? {
      var j :| FirstErrorAt(cands, j, test, r.error);
      FirstMatchExcludesError(cands, k, j, test, r.error);
    }
    var i :| FirstMatchAt(cands, i, test) && cands[i].0 == r.value;
    FirstMatchUnique(cands, k, i, test);
  }

  /** When a candidate is the first to pass a test, no candidate is the
      first to raise. */
  lemma FirstMatchExcludesError(cands: seq<(string, Json)>, k: int, j: int, test: Json -> Result<bool>, e: Error)
    requires FirstMatchAt(cands, k, test)
    ensures !FirstErrorAt(cands, j, test, e)
  {
  }

  /** At most one candidate is the first to pass a test. */
  lemma FirstMatchUnique(cands: seq<(string, Json)>, k: int, j: int, test: Json -> Result<bool>)
    requires FirstMatchAt(cands, k, test) && FirstMatchAt(cands, j, test)
    ensures j == k
  {
  }

  /** Errors from extraction and from matching reach the caller unchanged:
      the first definition that raises decides the error. */
  lemma ErrorsPropagate(defs: seq<(string, Json)>, k: nat, payload: Json)
    requires k < |defs|
    requires forall j :: 0 <= j < k ==> ResolveDefinition(defs[j].1, payload).Ok?
    requires ResolveDefinition(defs[k].1, payload).Err?
    ensures ResolveAll(defs, payload) == Err(ResolveDefinition(defs[k].1, payload).error)
  {
    assert ResolveAll(defs, payload).Err?;
    var e := ResolveAll(defs, payload).error;
    var i :| 0 <= i < |defs| && ResolveDefinition(defs[i].1, payload) == Err(e)
             && forall j :: 0 <= j < i ==> ResolveDefinition(defs[j].1, payload).Ok?;
    assert i == k;
  }
}
