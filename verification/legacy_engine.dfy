/**
 * The older selection logic in src/index.js: the same extraction, matching
 * and selection as src/lib, but extraction has no `$` check and a rule whose
 * value is a string is checked with `String.prototype.includes`, a substring
 * search, instead of raising.
 */
module LegacyEngine {
  import opened JsValues
  import Text
  import Extract
  import Match
  import Pick

  /** `extractValue(obj, path)`: split on `.`, drop the first segment, walk
      the rest with lodash `get`. It never raises. */
  function ExtractValueLegacy(obj: Json, path: string): Option<Json>
  {
    Extract.Get(obj, Extract.PathKeys(path))
  }

  /** On `$`-paths the older extraction agrees with the checked one; on any
      other path the checked one raises where the older one walks on. */
  lemma LegacyExtractAgrees(obj: Json, path: string)
    ensures Extract.StartsWithDollar(path) ==> Extract.ExtractValue(obj, path) == Ok(ExtractValueLegacy(obj, path))
    ensures !Extract.StartsWithDollar(path) ==> Extract.ExtractValue(obj, path).Err?
  {
  }

  /** Whatever the first segment is, only the segments after it are walked:
      `alpha.beta` reads `obj.beta`, and a path without a `.` reads
      nothing. */
  lemma LegacyFirstSegmentIgnored(obj: Json, x: string, rest: string)
    requires '.' !in x
    ensures ExtractValueLegacy(obj, x + "." + rest) == ExtractValueLegacy(obj, "$." + rest)
    ensures ExtractValueLegacy(obj, x) == None
  {
    Text.SplitAround(x, rest, '.');
    Text.SplitAround("$", rest, '.');
    Text.SplitNoSep(x, '.');
    Text.SplitNoSep("$", '.');
    assert x + "." + rest == x + ['.'] + rest;
    assert "$." + rest == "$" + ['.'] + rest;
  }

  /** One turn of `match`'s loop, for the entry `path: values`: the read of
      `values.includes` throws on null; an array tests membership; a string
      tests whether the extracted value, converted to a string, occurs in
      it; nothing else has a callable `includes`. */
  function CheckEntryLegacy(path: string, values: Json, payload: Json): (r: Result<bool>)
    ensures r.Ok? <==> values.Arr? || values.Str?
    ensures values.Arr? ==> r == Ok(Match.Includes(values.items, ExtractValueLegacy(payload, path)))
    ensures values.Str? ==> r == Ok(exists i :: Text.OccursAt(values.s, ToStr(ExtractValueLegacy(payload, path)), i))
  {
    match values
    case Arr(items) => Ok(Match.Includes(items, ExtractValueLegacy(payload, path)))
    case Str(s) =>
      var needle := ToStr(ExtractValueLegacy(payload, path));
      Text.ContainsIffOccurs(s, needle);
      Ok(Text.Contains(s, needle))
    case _ => Err(TypeError)
  }

  /** The loop of `match`: every entry is evaluated, a mismatch does not stop
      it, and the result is the conjunction. */
  function MatchEntriesLegacy(es: seq<(string, Json)>, payload: Json): (r: Result<bool>)
    ensures r.Ok? <==> forall i :: 0 <= i < |es| ==> CheckEntryLegacy(es[i].0, es[i].1, payload).Ok?
    ensures r.Ok? ==> (r.value <==> forall i :: 0 <= i < |es| ==> CheckEntryLegacy(es[i].0, es[i].1, payload).value)
    ensures r.Err? ==> exists i :: 0 <= i < |es| && CheckEntryLegacy(es[i].0, es[i].1, payload) == Err(r.error)
  {
    if |es| == 0 then Ok(true)
    else
      var ok :- CheckEntryLegacy(es[0].0, es[0].1, payload);
      var rest :- MatchEntriesLegacy(es[1..], payload);
      Ok(ok && rest)
  }

  /** `match(notification, payload)`: the rules under `notification.match`,
      which may be absent and then hold. */
  function MatchLegacy(notification: Json, payload: Json): (r: Result<bool>)
    ensures notification.Null? ==> r == Err(TypeError)
    ensures !notification.Null? && !(notification.Obj? && Lookup(notification.entries, "match").Some?) ==> r == Ok(true)
    ensures notification.Obj? && Lookup(notification.entries, "match").Some? ==>
              var es := OwnEntries(Lookup(notification.entries, "match"));
              r.Ok? <==> forall i :: 0 <= i < |es| ==> es[i].1.Arr? || es[i].1.Str?
    ensures notification.Obj? && Lookup(notification.entries, "match").Some? ==>
              r == MatchEntriesLegacy(OwnEntries(Lookup(notification.entries, "match")), payload)
  {
    var rules :- Member(Some(notification), "match");
    assert notification.Obj? ==> rules == Lookup(notification.entries, "match");
    var es := OwnEntries(rules);
    assert forall i :: 0 <= i < |es| ==> (CheckEntryLegacy(es[i].0, es[i].1, payload).Ok? <==> es[i].1.Arr? || es[i].1.Str?);
    MatchEntriesLegacy(es, payload)
  }

  function LegacyRulesHold(payload: Json): Json -> Result<bool>
  {
    n => MatchLegacy(n, payload)
  }

  /** `pick(payload)` over the configuration (a module-level value in the
      source, a parameter here): the first notification without `match` or
      with holding rules, `None` (`false`) when there is none. */
  function PickLegacy(config: Json, payload: Json): (r: Result<Option<Json>>)
    ensures var ns := OwnEntries(Some(config));
            r == Ok(None) <==> forall i :: 0 <= i < |ns| ==> Pick.Applies(ns[i].1, LegacyRulesHold(payload)) == Ok(false)
    ensures var ns := OwnEntries(Some(config));
            r.Ok? && r.value.Some? ==>
              exists i :: 0 <= i < |ns| && ns[i].1 == r.value.value && Pick.Applies(ns[i].1, LegacyRulesHold(payload)) == Ok(true)
                          && forall j :: 0 <= j < i ==> Pick.Applies(ns[j].1, LegacyRulesHold(payload)) == Ok(false)
    ensures var ns := OwnEntries(Some(config));
            r.Err? ==>
              exists i :: 0 <= i < |ns| && Pick.Applies(ns[i].1, LegacyRulesHold(payload)) == Err(r.error)
                          && forall j :: 0 <= j < i ==> Pick.Applies(ns[j].1, LegacyRulesHold(payload)) == Ok(false)
  {
    Pick.FirstApplicable(EntryValues(OwnEntries(Some(config))), LegacyRulesHold(payload))
  }

  /** Rules under which the two versions coincide: every value a list, every
      key a `$`-path. */
  predicate WellFormedDefinition(n: Json)
  {
    n.Null? || Match.WellFormedRules(OwnEntries(Member(Some(n), "match").value))
  }

  /** On well-formed rules the older matching agrees with the newer one. */
  lemma {:induction false} LegacyMatchAgrees(es: seq<(string, Json)>, payload: Json)
    requires Match.WellFormedRules(es)
    ensures MatchEntriesLegacy(es, payload) == Match.MatchEntries(es, payload)
    decreases |es|
  {
    if |es| > 0 {
      LegacyExtractAgrees(payload, es[0].0);
      assert Match.WellFormedRules(es[1..]) by {
        forall i | 0 <= i < |es[1..]| ensures es[1..][i].1.Arr? && Extract.StartsWithDollar(es[1..][i].0) {
          assert es[1..][i] == es[i + 1];
        }
      }
      LegacyMatchAgrees(es[1..], payload);
    }
  }

  /** Selection by tests that agree on every definition gives the same
      result. */
  lemma {:induction false} FirstApplicableAgrees(ns: seq<Json>, t1: Json -> Result<bool>, t2: Json -> Result<bool>)
    requires forall i :: 0 <= i < |ns| ==> Pick.Applies(ns[i], t1) == Pick.Applies(ns[i], t2)
    ensures Pick.FirstApplicable(ns, t1) == Pick.FirstApplicable(ns, t2)
    decreases |ns|
  {
    if |ns| > 0 {
      assert Pick.Applies(ns[0], t1) == Pick.Applies(ns[0], t2);
      forall i | 0 <= i < |ns[1..]| ensures Pick.Applies(ns[1..][i], t1) == Pick.Applies(ns[1..][i], t2) {
        assert ns[1..][i] == ns[i + 1];
      }
      FirstApplicableAgrees(ns[1..], t1, t2);
    }
  }

  /** When every configured definition has well-formed rules, the older
      selection picks exactly what the newer one picks. */
  lemma LegacyPickAgrees(config: Json, payload: Json)
    requires forall i :: 0 <= i < |OwnEntries(Some(config))| ==> WellFormedDefinition(OwnEntries(Some(config))[i].1)
    ensures PickLegacy(config, payload) == Pick.Pick(config, payload)
  {
    var ns := EntryValues(OwnEntries(Some(config)));
    forall i | 0 <= i < |ns|
      ensures Pick.Applies(ns[i], LegacyRulesHold(payload)) == Pick.Applies(ns[i], Pick.RulesHold(payload))
    {
      var n := ns[i];
      assert WellFormedDefinition(n);
      if !n.Null? {
        LegacyMatchAgrees(OwnEntries(Member(Some(n), "match").value), payload);
      }
    }
    FirstApplicableAgrees(ns, LegacyRulesHold(payload), Pick.RulesHold(payload));
  }

  /** A bare-string rule value is a substring test in the older version:
      it holds whenever the extracted value, as text, occurs in the string,
      where the newer version raises. */
  lemma BareStringIsSubstringTest(path: string, s: string, payload: Json, i: int)
    requires Text.OccursAt(s, ToStr(ExtractValueLegacy(payload, path)), i)
    ensures MatchEntriesLegacy([(path, Str(s))], payload) == Ok(true)
    ensures Match.MatchEntries([(path, Str(s))], payload) == Err(NotWrapped(s))
  {
    SingleRuleLegacy(path, Str(s), payload);
    assert [(path, Str(s))][1..] == [];
  }

  /** `{"$.source": "aws.codebuild"}` holds for the source `codebuild`: the
      rule value is written as the concatenation it is read as. */
  lemma BareStringExample()
    ensures MatchEntriesLegacy([("$.source", Str("aws." + "codebuild"))], Obj([("source", Str("codebuild"))])) == Ok(true)
  {
    var payload := Obj([("source", Str("codebuild"))]);
    var v := ExtractValueLegacy(payload, "$.source");
    assert v == Some(Str("codebuild")) by {
      SourcePathReads(payload);
    }
    Text.OccursAsSuffix("aws.", "codebuild");
    BareStringIsSubstringTest("$.source", "aws." + "codebuild", payload, 4);
  }

  lemma SingleRuleLegacy(path: string, values: Json, payload: Json)
    ensures MatchEntriesLegacy([(path, values)], payload) == CheckEntryLegacy(path, values, payload)
  {
    assert [(path, values)][1..] == [];
  }

  lemma SourcePathReads(payload: Json)
    ensures ExtractValueLegacy(payload, "$.source") == Extract.Walk(payload, ["source"])
  {
    Text.SplitAround("$", "source", '.');
    Text.SplitNoSep("$", '.');
    Text.SplitNoSep("source", '.');
    assert "$.source" == "$" + ['.'] + "source";
  }

  /** A path missing from the payload converts to the text `undefined`, so a
      bare-string rule containing that word holds for every payload lacking
      the path. */
  lemma MissingPathMatchesUndefinedText(payload: Json)
    ensures MatchEntriesLegacy([("alpha", Str("undefined"))], payload) == Ok(true)
  {
    LegacyFirstSegmentIgnored(payload, "alpha", "");
    assert Text.OccursAt("undefined", "undefined", 0);
  }
}
