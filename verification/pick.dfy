/**
 * Notification selection (src/lib/pick.js): the configured notifications
 * are scanned in order and the first one that either has no own `match`
 * property or whose `match` rules hold is returned; `false` (here `None`)
 * when none is.
 *
 * The source declares `pickNotification(payload, notificationsConfig)`, but
 * its callers pass the configuration first: `pick(config, event)`. The body
 * is modelled as declared (`PickNotification`), and `Pick` gives it the
 * arguments by role, which is what the callers and the tests expect.
 */
module Pick {
  import opened JsValues
  import Match

  /** Whether one notification is selected when reached: one without an own
      `match` property is, unconditionally; otherwise its rules decide. */
  function Applies(n: Json, test: Json -> Result<bool>): Result<bool>
  {
    var has :- HasOwn(n, "match");
    if has then test(n) else Ok(true)
  }

  /** The `forOwn` loop of `pickNotification`: stops at the first
      notification that applies, so later ones are never evaluated. */
  function FirstApplicable(ns: seq<Json>, test: Json -> Result<bool>): (r: Result<Option<Json>>)
    ensures r == Ok(None) <==> forall i :: 0 <= i < |ns| ==> Applies(ns[i], test) == Ok(false)
    ensures r.Ok? && r.value.Some? ==>
      exists i :: 0 <= i < |ns| && ns[i] == r.value.value && Applies(ns[i], test) == Ok(true)
                  && forall j :: 0 <= j < i ==> Applies(ns[j], test) == Ok(false)
    ensures r.Err? ==>
      exists i :: 0 <= i < |ns| && Applies(ns[i], test) == Err(r.error)
                  && forall j :: 0 <= j < i ==> Applies(ns[j], test) == Ok(false)
  {
    if |ns| == 0 then Ok(None)
    else
      var ok :- Applies(ns[0], test);
      if ok then Ok(Some(ns[0]))
      else
        var r := FirstApplicable(ns[1..], test);
        assert forall j :: 1 <= j < |ns| ==> ns[j] == ns[1..][j - 1];
        r
  }

  /** Once the scan has decided (selected a notification or raised), the
      notifications after that point cannot change the outcome. */
  lemma {:induction false} LaterNotificationsIgnored(ns: seq<Json>, later: seq<Json>, test: Json -> Result<bool>)
    requires FirstApplicable(ns, test) != Ok(None)
    ensures FirstApplicable(ns + later, test) == FirstApplicable(ns, test)
    decreases |ns|
  {
    assert |ns| > 0;
    assert (ns + later)[0] == ns[0];
    var ok := Applies(ns[0], test);
    if ok == Ok(false) {
      assert (ns + later)[1..] == ns[1..] + later;
      LaterNotificationsIgnored(ns[1..], later, test);
    }
  }

  /** `matchNotificationWithPayload(notification, payload)`: the rules under
      the notification's `match` property, checked exactly as
      `matchRulesWithPayload` checks them (the two loop bodies are the
      same). */
  function MatchNotification(notification: Json, payload: Json): (r: Result<bool>)
    ensures notification.Null? ==> r == Err(TypeError)
    ensures !notification.Null? && !(notification.Obj? && Lookup(notification.entries, "match").Some?) ==> r == Ok(true)
    ensures notification.Obj? && Lookup(notification.entries, "match").Some? ==>
              (r.Ok? <==> Match.WellFormedRules(OwnEntries(Lookup(notification.entries, "match"))))
  {
    var rules :- Member(Some(notification), "match");
    Match.MatchRules(rules, payload)
  }

  /** The rule test `pickNotification` applies, for one payload. */
  function RulesHold(payload: Json): Json -> Result<bool>
  {
    n => MatchNotification(n, payload)
  }

  /** `pickNotification(payload, notificationsConfig)` with its parameters in
      the declared order. */
  function PickNotification(payload: Json, notificationsConfig: Json): (r: Result<Option<Json>>)
    ensures var ns := OwnEntries(Some(notificationsConfig));
            r == Ok(None) <==> forall i :: 0 <= i < |ns| ==> Applies(ns[i].1, RulesHold(payload)) == Ok(false)
    ensures var ns := OwnEntries(Some(notificationsConfig));
            r.Ok? && r.value.Some? ==>
              exists i :: 0 <= i < |ns| && ns[i].1 == r.value.value && Applies(ns[i].1, RulesHold(payload)) == Ok(true)
                          && forall j :: 0 <= j < i ==> Applies(ns[j].1, RulesHold(payload)) == Ok(false)
    ensures var ns := OwnEntries(Some(notificationsConfig));
            r.Err? ==>
              exists i :: 0 <= i < |ns| && Applies(ns[i].1, RulesHold(payload)) == Err(r.error)
                          && forall j :: 0 <= j < i ==> Applies(ns[j].1, RulesHold(payload)) == Ok(false)
  {
    FirstApplicable(EntryValues(OwnEntries(Some(notificationsConfig))), RulesHold(payload))
  }

  /** Selection by role: the notification definitions, then the event. */
  function Pick(definitions: Json, event: Json): (r: Result<Option<Json>>)
    ensures var ds := OwnEntries(Some(definitions));
            r == Ok(None) <==> forall i :: 0 <= i < |ds| ==> Applies(ds[i].1, RulesHold(event)) == Ok(false)
    ensures var ds := OwnEntries(Some(definitions));
            r.Ok? && r.value.Some? ==>
              exists i :: 0 <= i < |ds| && ds[i].1 == r.value.value && Applies(ds[i].1, RulesHold(event)) == Ok(true)
                          && forall j :: 0 <= j < i ==> Applies(ds[j].1, RulesHold(event)) == Ok(false)
    ensures var ds := OwnEntries(Some(definitions));
            r.Err? ==>
              exists i :: 0 <= i < |ds| && Applies(ds[i].1, RulesHold(event)) == Err(r.error)
                          && forall j :: 0 <= j < i ==> Applies(ds[j].1, RulesHold(event)) == Ok(false)
  {
    PickNotification(event, definitions)
  }

  /** Over a list of definitions, the selected definition is the first one
      that applies, unchanged; every definition before it was evaluated and did
      not apply; `None` means that no definition applies, including for an
      empty list; a raise comes from the first definition that raises, with
      all definitions before it not applying. */
  lemma PickIsFirstApplicable(defs: seq<Json>, event: Json)
    ensures Pick(Arr(defs), event) == Ok(None) <==>
      forall i :: 0 <= i < |defs| ==> Applies(defs[i], RulesHold(event)) == Ok(false)
    ensures Pick(Arr(defs), event).Ok? && Pick(Arr(defs), event).value.Some? ==>
      exists i :: 0 <= i < |defs| && defs[i] == Pick(Arr(defs), event).value.value
                  && Applies(defs[i], RulesHold(event)) == Ok(true)
                  && forall j :: 0 <= j < i ==> Applies(defs[j], RulesHold(event)) == Ok(false)
    ensures Pick(Arr(defs), event).Err? ==>
      exists i :: 0 <= i < |defs| && Applies(defs[i], RulesHold(event)) == Err(Pick(Arr(defs), event).error)
                  && forall j :: 0 <= j < i ==> Applies(defs[j], RulesHold(event)) == Ok(false)
  {
    assert EntryValues(OwnEntries(Some(Arr(defs)))) == defs;
  }

  /** A definition without a `match` property is selected whenever it is
      reached, whatever the event. */
  lemma DefinitionWithoutMatchApplies(d: seq<(string, Json)>, event: Json)
    requires Lookup(d, "match").None?
    ensures Applies(Obj(d), RulesHold(event)) == Ok(true)
  {
  }

  /** A definition with a `match` property applies exactly when its rules
      hold; a bare-string rule value in it raises when it is reached. */
  lemma DefinitionWithMatchApplies(d: seq<(string, Json)>, rules: Json, event: Json)
    requires Lookup(d, "match") == Some(rules)
    ensures Applies(Obj(d), RulesHold(event)) == Match.MatchRules(Some(rules), event)
  {
  }

  /** The two definitions of `pick` tests: when both match, the first listed
      is returned; a non-matching one in front is skipped. */
  lemma FirstOfTwoMatchingWins(first: Json, second: Json, event: Json)
    requires Applies(first, RulesHold(event)) == Ok(true)
    ensures Pick(Arr([first, second]), event) == Ok(Some(first))
  {
  }

  lemma NonMatchingIsSkipped(first: Json, second: Json, event: Json)
    requires Applies(first, RulesHold(event)) == Ok(false)
    requires Applies(second, RulesHold(event)) == Ok(true)
    ensures Pick(Arr([first, second]), event) == Ok(Some(second))
  {
    assert EntryValues(OwnEntries(Some(Arr([first, second])))) == [first, second];
    assert [first, second][1..] == [second];
    assert FirstApplicable([second], RulesHold(event)) == Ok(Some(second));
  }

  /** The argument order at the call sites loses the selection: the test
      that passes `[{name}]` as configuration and `{}` as event expects the
      definition back, but with the parameters as declared the loop walks
      the empty event and returns `false`. A real event is walked instead of
      the configuration, and its first value is "selected". */
  lemma CallSiteArgumentSwap()
    ensures var def := Obj([("name", Str("Notification without match rules"))]);
            && PickNotification(Arr([def]), Obj([])) == Ok(None)
            && Pick(Arr([def]), Obj([])) == Ok(Some(def))
    ensures var detail := Obj([("build-status", Str("FAILED"))]);
            PickNotification(Arr([]), Obj([("detail", detail)])) == Ok(Some(detail))
  {
    var def := Obj([("name", Str("Notification without match rules"))]);
    assert EntryValues(OwnEntries(Some(Obj([])))) == [];
    assert EntryValues(OwnEntries(Some(Arr([def])))) == [def];
    assert Applies(def, RulesHold(Obj([]))) == Ok(true);
    var detail := Obj([("build-status", Str("FAILED"))]);
    assert EntryValues(OwnEntries(Some(Obj([("detail", detail)])))) == [detail];
    assert Applies(detail, RulesHold(Arr([]))) == Ok(true);
  }
}
