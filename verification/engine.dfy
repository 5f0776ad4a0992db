/**
 * The pipeline of src/lib/lambda-slack.js: select a notification for the
 * event, create its variables, substitute them into its Slack message
 * template, and post the result to the template's webhook under the
 * notification's name. The post itself is an outcome value here; the
 * configuration, read from a file at load time in the source, is a
 * parameter.
 *
 * Selection passes its arguments by role (see module Pick), and substitution
 * with no variables leaves strings alone (see module Replace).
 */
module Engine {
  import opened JsValues
  import Pick
  import Variables
  import Replace

  /** What processing an event leads to: nothing is sent (`callback(null)`
      right away), or one message is posted. */
  datatype Outcome =
    | NoOp
    | Post(webhook: Option<Json>, body: Json, name: Option<Json>)

  /** `processEvent(event, callback)` up to the call of `post`. A selected
      notification that is itself `false` cannot be told apart from "none
      selected" by the `=== false` test. */
  function ProcessEvent(config: Json, event: Json): (r: Result<Outcome>)
    ensures Pick.Pick(config, event).Err? ==> r == Err(Pick.Pick(config, event).error)
    ensures r == Ok(NoOp) <==>
              Pick.Pick(config, event) == Ok(None) || Pick.Pick(config, event) == Ok(Some(Bool(false)))
    ensures r.Ok? && r.value.Post? ==>
              && Pick.Pick(config, event).Ok? && Pick.Pick(config, event).value.Some?
              && Pick.Pick(config, event).value.value in EntryValues(OwnEntries(Some(config)))
              && r == Deliver(Pick.Pick(config, event).value.value, event)
    ensures var p := Pick.Pick(config, event);
            p.Ok? && p.value.Some? && p.value.value != Bool(false) ==> r == Deliver(p.value.value, event)
  {
    var picked :- Pick.Pick(config, event);
    match picked
    case None => Ok(NoOp)
    case Some(n) => if n == Bool(false) then Ok(NoOp) else Deliver(n, event)
  }

  /** The rest of `processEvent` once a notification `n` is selected: create
      its variables, substitute them into its template, and post to the
      template's webhook, read off the template as configured, before
      substitution. */
  function Deliver(n: Json, event: Json): (r: Result<Outcome>)
    ensures r != Ok(NoOp)
    ensures n.Null? ==> r == Err(TypeError)
    ensures r.Ok? ==>
              && n.Obj?
              && r.value.name == Lookup(n.entries, "name")
              && Lookup(n.entries, "slackMessage").Some?
              && var t := Lookup(n.entries, "slackMessage").value;
                 && Replace.SameShape(t, r.value.body)
                 && Member(Some(t), "webhook") == Ok(r.value.webhook)
  {
    if n.Null? then Err(TypeError)
    else
      // Past the null check, reading a property of `n` cannot throw.
      var vars :- Variables.CreateVariables(Member(Some(n), "variables").value, event);
      var template := Member(Some(n), "slackMessage").value;
      var body :- Replace.Replace(template, vars);
      var webhook :- Member(template, "webhook");
      Ok(Post(webhook, body, Member(Some(n), "name").value))
  }

  /** For a notification with an object or array template, exactly one post
      happens: to the template's own webhook, under the notification's name,
      with the template's placeholders replaced by the variables created
      from the notification's `variables` and the event. */
  lemma PostCarriesSubstitutedTemplate(n: seq<(string, Json)>, event: Json, t: Json, vars: Variables.Vars)
    requires Variables.CreateVariables(Lookup(n, "variables"), event) == Ok(vars)
    requires Lookup(n, "slackMessage") == Some(t) && (t.Obj? || t.Arr?)
    ensures Deliver(Obj(n), event) ==
              Ok(Post(if t.Obj? then Lookup(t.entries, "webhook") else None,
                      Replace.DeepMap(t, Replace.Substitution(vars)),
                      Lookup(n, "name")))
  {
    assert Member(Some(Obj(n)), "variables") == Ok(Lookup(n, "variables"));
    assert Member(Some(Obj(n)), "slackMessage") == Ok(Some(t));
    assert Replace.Replace(Some(t), vars) == Ok(Replace.DeepMap(t, Replace.Substitution(vars)));
  }

  /** The message body is the template with every string substituted, in
      document order; nothing else in it changes. */
  lemma BodyStringsAreSubstituted(n: seq<(string, Json)>, event: Json, t: Json, vars: Variables.Vars)
    requires Variables.CreateVariables(Lookup(n, "variables"), event) == Ok(vars)
    requires Lookup(n, "slackMessage") == Some(t) && (t.Obj? || t.Arr?)
    ensures Deliver(Obj(n), event).Ok? && Deliver(Obj(n), event).value.Post?
    ensures Replace.Strings(Deliver(Obj(n), event).value.body) ==
              Replace.Apply(Replace.Strings(t), Replace.Substitution(vars))
  {
    PostCarriesSubstitutedTemplate(n, event, t, vars);
    Replace.DeepMapMapsEveryString(t, Replace.Substitution(vars));
  }

  /** An error in variable creation aborts before anything is posted. */
  lemma VariableErrorAborts(n: seq<(string, Json)>, event: Json)
    requires Variables.CreateVariables(Lookup(n, "variables"), event).Err?
    ensures Deliver(Obj(n), event) == Err(Variables.CreateVariables(Lookup(n, "variables"), event).error)
  {
  }

  /** A notification without a message template aborts, because the deep
      copy of undefined fails to parse. */
  lemma MissingTemplateAborts(n: seq<(string, Json)>, event: Json)
    requires Variables.CreateVariables(Lookup(n, "variables"), event).Ok?
    requires Lookup(n, "slackMessage").None?
    ensures Deliver(Obj(n), event) == Err(SyntaxError)
  {
  }

  /** A notification with no `variables` gets no variables, and its template
      is posted unchanged. */
  lemma NoVariablesPostsTemplateAsIs(n: seq<(string, Json)>, event: Json, t: Json)
    requires Lookup(n, "variables").None?
    requires Lookup(n, "slackMessage") == Some(t) && t.Obj?
    ensures Deliver(Obj(n), event) == Ok(Post(Lookup(t.entries, "webhook"), t, Lookup(n, "name")))
  {
    assert Variables.CreateVariables(None, event) == Ok([]);
    PostCarriesSubstitutedTemplate(n, event, t, []);
    forall i | 0 <= i < |Replace.Strings(t)|
      ensures Replace.Substitution([])(Replace.Strings(t)[i]) == Replace.Strings(t)[i]
    {
      Replace.NoVariablesNoChange(Replace.Strings(t)[i]);
    }
    Replace.DeepMapFixesValue(t, Replace.Substitution([]));
  }
}
