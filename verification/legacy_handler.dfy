/**
 * The hard-coded CodeBuild handler of the root index.js: it derives the
 * build identifiers from the event, picks the wording and colour by build
 * status, lays out one Slack message with a single attachment, and decides
 * from the HTTP response whether Lambda should retry. The channel comes
 * from the process environment and `encodeURI` is left abstract; both are
 * parameters.
 */
module LegacyHandler {
  import opened JsValues
  import Text
  import Extract

  /** `buildArn.split('/').pop()` and `buildId.split(':').pop()`. */
  function BuildIds(buildArn: string): (r: (string, string))
    ensures IdsFrom(buildArn, r.0, r.1)
  {
    var buildId := Text.LastSegment(buildArn, '/');
    Text.LastSegmentIsSuffix(buildArn, '/');
    Text.LastSegmentIsSuffix(buildId, ':');
    (buildId, Text.LastSegment(buildId, ':'))
  }

  /** `suffix` is the part of `s` after its last `sep`, or all of `s`. */
  predicate AfterLast(s: string, sep: char, suffix: string)
  {
    && sep !in suffix
    && |suffix| <= |s|
    && s[|s| - |suffix|..] == suffix
    && (|suffix| < |s| ==> s[|s| - |suffix| - 1] == sep)
  }

  /** The build id follows the last `/` of the ARN and the build UUID the
      last `:` of the build id. */
  predicate IdsFrom(arn: string, buildId: string, buildUuid: string)
  {
    AfterLast(arn, '/', buildId) && AfterLast(buildId, ':', buildUuid)
  }

  /** The suffix after the last separator is determined by the string. */
  lemma {:induction false} AfterLastUnique(s: string, sep: char, a: string, b: string)
    requires AfterLast(s, sep, a) && AfterLast(s, sep, b)
    ensures a == b
  {
  }

  /** The wording and colour the status switch selects. */
  datatype StatusContent = StatusContent(fallback: string, pretext: string, color: string, status: string)

  /** The `switch` on `event.detail['build-status']` (strict equality):
      `FAILED` and `STOPPED` have their own content, and every other value
      falls through the `default` label into the `SUCCEEDED` case. The
      project name and UUID are interpolated as text. */
  function Content(buildStatus: Option<Json>, project: string, uuid: string): (c: StatusContent)
    ensures c.color == "#e8674a" <==> buildStatus == Some(Str("FAILED"))
    ensures c.color == "#f2cd90" <==> buildStatus == Some(Str("STOPPED"))
    ensures c.color == "#abc8b6" <==> buildStatus != Some(Str("FAILED")) && buildStatus != Some(Str("STOPPED"))
  {
    if buildStatus == Some(Str("FAILED")) then
      StatusContent("New failed build for " + project + ": " + uuid + ".",
                    "Oops, a failed build for " + project + "! :thinking_face:",
                    "#e8674a", "Something is wrong. :point_left:")
    else if buildStatus == Some(Str("STOPPED")) then
      StatusContent("A build has been stopped for " + project + ": " + uuid + ".",
                    "A build for " + project + " has been stopped for some reason. :zipper_mouth_face:",
                    "#f2cd90", "Not really sure. :construction:")
    else
      StatusContent("New successful build for " + project + ": " + uuid + ".",
                    "Look, there is a new successful build for " + project + "! :sunglasses:",
                    "#abc8b6", "Things look great! :+1:")
  }

  /** Any status other than `FAILED` and `STOPPED`, including a missing one,
      gets exactly the `SUCCEEDED` content. */
  lemma UnknownStatusIsSuccess(buildStatus: Option<Json>, project: string, uuid: string)
    requires buildStatus != Some(Str("FAILED")) && buildStatus != Some(Str("STOPPED"))
    ensures Content(buildStatus, project, uuid) == Content(Some(Str("SUCCEEDED")), project, uuid)
  {
  }

  /** Every fallback text ends with the build UUID and a full stop, after
      the project name. */
  lemma FallbackNamesBuild(buildStatus: Option<Json>, project: string, uuid: string)
    ensures var f := Content(buildStatus, project, uuid).fallback;
            |f| >= |project| + |uuid| + 3 && f[|f| - |uuid| - 3..] == ": " + uuid + "."
            && f[|f| - |uuid| - 3 - |project|..|f| - |uuid| - 3] == project
  {
    var f := Content(buildStatus, project, uuid).fallback;
    var lead := if buildStatus == Some(Str("FAILED")) then "New failed build for "
                else if buildStatus == Some(Str("STOPPED")) then "A build has been stopped for "
                else "New successful build for ";
    FallbackShape(f, lead, project, uuid);
  }

  lemma FallbackShape(f: string, lead: string, project: string, uuid: string)
    requires f == lead + project + ": " + uuid + "."
    ensures |f| >= |project| + |uuid| + 3 && f[|f| - |uuid| - 3..] == ": " + uuid + "."
            && f[|f| - |uuid| - 3 - |project|..|f| - |uuid| - 3] == project
  {
    assert f == lead + (project + (": " + uuid + "."));
  }

  /** One attachment field; a `value` of undefined is dropped when the
      message is serialised. */
  datatype Field = Field(title: string, value: Option<Json>, short: bool)

  datatype Attachment = Attachment(fallback: string, color: string, pretext: string, fields: seq<Field>)

  datatype Message = Message(channel: Option<string>, username: string, iconUrl: string, attachments: seq<Attachment>)

  const Username := "Relevant Builds"
  const IconUrl := "https://s3.us-east-2.amazonaws.com/relevantbits-assets/logo-aws-codebuild.png"

  /** A property whose value may be undefined, as `JSON.stringify` writes
      it: left out when undefined. */
  function Prop(key: string, v: Option<Json>): (r: seq<(string, Json)>)
    ensures v.None? ==> r == []
    ensures v.Some? ==> r == [(key, v.value)]
  {
    match v
    case None => []
    case Some(x) => [(key, x)]
  }

  function FieldJson(f: Field): Json
  {
    Obj([("title", Str(f.title))] + Prop("value", f.value) + [("short", Bool(f.short))])
  }

  function FieldsJson(fs: seq<Field>): (r: seq<Json>)
    ensures |r| == |fs| && forall i :: 0 <= i < |fs| ==> r[i] == FieldJson(fs[i])
  {
    seq(|fs|, i requires 0 <= i < |fs| => FieldJson(fs[i]))
  }

  function AttachmentJson(a: Attachment): Json
  {
    Obj([("fallback", Str(a.fallback)), ("color", Str(a.color)), ("pretext", Str(a.pretext)),
         ("fields", Arr(FieldsJson(a.fields)))])
  }

  /** The body `JSON.stringify` sends: keys in the order the object literal
      lists them, an undefined channel left out. */
  function MessageJson(m: Message): (j: Json)
    ensures j.Obj? && |j.entries| >= 3
    ensures m.channel.Some? ==> j.entries[0] == ("channel", Str(m.channel.value))
    ensures m.channel.None? ==> Lookup(j.entries, "channel").None?
  {
    Obj(Prop("channel", if m.channel.Some? then Some(Str(m.channel.value)) else None)
        + [("username", Str(m.username)),
           ("icon_url", Str(m.iconUrl)),
           ("attachments", Arr(seq(|m.attachments|, i requires 0 <= i < |m.attachments| => AttachmentJson(m.attachments[i]))))])
  }

  /** The message literal: one attachment, with the fields Project, Status,
      Build, Full log and Build ID. Links are interpolated as text. */
  function BuildMessage(channel: Option<string>, c: StatusContent, projectName: Option<Json>,
                        buildLink: string, logLink: Option<Json>, buildId: string): Message
  {
    Message(channel, Username, IconUrl,
      [Attachment(c.fallback, c.color, c.pretext,
        [ Field("Project", projectName, false),
          Field("Status", Some(Str(c.status)), false),
          Field("Build", Some(Str("<" + buildLink + "|View build>")), true),
          Field("Full log", Some(Str("<" + ToStr(logLink) + "|View full log>")), true),
          Field("Build ID", Some(Str(buildId)), false) ])])
  }

  /** The console link of the build, with `encodeURI` as a parameter. */
  function BuildLink(region: Option<Json>, buildId: string, encode: string -> string): string
  {
    "https://" + ToStr(region) + ".console.aws.amazon.com/codebuild/home?region=" + ToStr(region)
      + "#/builds/" + encode(buildId) + "/view/new"
  }

  /** `event.detail[key]`; reading off a null or undefined `detail`
      throws. */
  function DetailField(event: Json, key: string): Result<Option<Json>>
  {
    var detail :- Member(Some(event), "detail");
    Member(detail, key)
  }

  /** `event.detail['build-id']` can be read and is a string. */
  predicate HasStringBuildId(event: Json)
  {
    var arn := DetailField(event, "build-id");
    arn.Ok? && arn.value.Some? && arn.value.value.Str?
  }

  /** `event.detail['additional-information'].logs['deep-link']`: a chain of
      reads that throws once an intermediate is null or undefined. */
  function LogLink(event: Json): Result<Option<Json>>
  {
    var detail :- Member(Some(event), "detail");
    Extract.MemberChain(detail, ["additional-information", "logs", "deep-link"])
  }

  /** What the handler reads off the event. */
  datatype EventFacts = EventFacts(buildArn: string, projectName: Option<Json>, region: Option<Json>,
                                   logLink: Option<Json>, buildStatus: Option<Json>)

  /** The property reads of `processEvent`, in the source's order: the build
      ARN must be a string (only strings have `split`), and the log link is a
      chain of three reads below `detail`. */
  function ReadEvent(event: Json): (r: Result<EventFacts>)
    ensures r.Err? ==> r.error == TypeError
    ensures r.Ok? ==> DetailField(event, "build-id") == Ok(Some(Str(r.value.buildArn)))
    ensures r.Ok? ==> DetailField(event, "project-name") == Ok(r.value.projectName)
    ensures r.Ok? ==> DetailField(event, "build-status") == Ok(r.value.buildStatus)
    ensures r.Ok? ==> Member(Some(event), "region") == Ok(r.value.region)
    ensures !HasStringBuildId(event) ==> r.Err?
    ensures r.Ok? <==> HasStringBuildId(event) && LogLink(event).Ok?
    ensures r.Ok? ==> LogLink(event) == Ok(r.value.logLink)
  {
    var detail :- Member(Some(event), "detail");
    var buildArn :- Member(detail, "build-id");
    if !(buildArn.Some? && buildArn.value.Str?) then Err(TypeError)
    else
      // Past the read of `build-id`, `detail` is an object and `event` is
      // not null, so these reads cannot throw until the log link.
      var logLink :- Extract.MemberChain(detail, ["additional-information", "logs", "deep-link"]);
      Ok(EventFacts(buildArn.value.s, Member(detail, "project-name").value, Member(Some(event), "region").value,
                    logLink, Member(detail, "build-status").value))
  }

  /** The message built from what was read: the fixed sender, the
      configured channel, and one attachment with five fields. */
  function ComposeMessage(f: EventFacts, channel: Option<string>, encode: string -> string): (m: Message)
    ensures m.username == Username && m.iconUrl == IconUrl && m.channel == channel
    ensures |m.attachments| == 1 && |m.attachments[0].fields| == 5
  {
    var ids := BuildIds(f.buildArn);
    var c := Content(f.buildStatus, ToStr(f.projectName), ids.1);
    BuildMessage(channel, c, f.projectName, BuildLink(f.region, ids.0, encode), f.logLink, ids.0)
  }

  /** The fields are, in order, Project (the project name as read), Status,
      Build, Full log and Build ID (the text after the last `/` of the ARN),
      with `short` false, false, true, true, false. */
  lemma FieldLayout(f: EventFacts, channel: Option<string>, encode: string -> string)
    ensures var fs := ComposeMessage(f, channel, encode).attachments[0].fields;
            && fs[0].title == "Project" && fs[1].title == "Status" && fs[2].title == "Build"
            && fs[3].title == "Full log" && fs[4].title == "Build ID"
            && !fs[0].short && !fs[1].short && fs[2].short && fs[3].short && !fs[4].short
            && fs[0].value == f.projectName
            && fs[4].value.Some? && fs[4].value.value.Str? && AfterLast(f.buildArn, '/', fs[4].value.value.s)
            && fs[2].value == Some(Str("<" + BuildLink(f.region, fs[4].value.value.s, encode) + "|View build>"))
            && fs[3].value == Some(Str("<" + ToStr(f.logLink) + "|View full log>"))
  {
    var ids := BuildIds(f.buildArn);
    assert ComposeMessage(f, channel, encode).attachments[0].fields[4].value == Some(Str(ids.0));
  }

  /** The attachment's colour follows the build status: `#e8674a` exactly
      for `FAILED`, `#f2cd90` exactly for `STOPPED`, `#abc8b6` otherwise. */
  lemma ColourFollowsStatus(f: EventFacts, channel: Option<string>, encode: string -> string)
    ensures var colour := ComposeMessage(f, channel, encode).attachments[0].color;
            && (colour == "#e8674a" <==> f.buildStatus == Some(Str("FAILED")))
            && (colour == "#f2cd90" <==> f.buildStatus == Some(Str("STOPPED")))
            && (colour == "#abc8b6" <==> f.buildStatus != Some(Str("FAILED")) && f.buildStatus != Some(Str("STOPPED")))
  {
    var ids := BuildIds(f.buildArn);
    var c := Content(f.buildStatus, ToStr(f.projectName), ids.1);
    assert ComposeMessage(f, channel, encode).attachments[0].color == c.color;
  }

  /** `processEvent(event, callback)` up to the call of `postMessage`. */
  function ProcessEvent(event: Json, channel: Option<string>, encode: string -> string): (r: Result<Message>)
    ensures r.Err? ==> r.error == TypeError
    ensures r.Ok? <==> ReadEvent(event).Ok?
    ensures r.Ok? <==> HasStringBuildId(event) && LogLink(event).Ok?
  {
    var f :- ReadEvent(event);
    Ok(ComposeMessage(f, channel, encode))
  }

  /** For every event the handler accepts, the Project field carries
      `event.detail['project-name']` as read, the Build ID field the text
      after the last `/` of `event.detail['build-id']`, and the colour
      follows `event.detail['build-status']`. */
  lemma MessageFollowsEvent(event: Json, channel: Option<string>, encode: string -> string)
    ensures ProcessEvent(event, channel, encode).Ok? ==>
            var m := ProcessEvent(event, channel, encode).value;
            var fs := m.attachments[0].fields;
            && DetailField(event, "project-name") == Ok(fs[0].value)
            && DetailField(event, "build-id").Ok?
            && (var arn := DetailField(event, "build-id").value;
                && arn.Some? && arn.value.Str?
                && fs[4].value.Some? && fs[4].value.value.Str?
                && AfterLast(arn.value.s, '/', fs[4].value.value.s))
            && DetailField(event, "build-status").Ok?
            && (m.attachments[0].color == "#e8674a" <==> DetailField(event, "build-status").value == Some(Str("FAILED")))
            && (m.attachments[0].color == "#f2cd90" <==> DetailField(event, "build-status").value == Some(Str("STOPPED")))
            && (m.attachments[0].color == "#abc8b6" <==>
                  DetailField(event, "build-status").value != Some(Str("FAILED"))
                  && DetailField(event, "build-status").value != Some(Str("STOPPED")))
            && LogLink(event).Ok?
            && fs[3].value == Some(Str("<" + ToStr(LogLink(event).value) + "|View full log>"))
  {
    if ReadEvent(event).Ok? {
      var f := ReadEvent(event).value;
      FieldLayout(f, channel, encode);
      ColourFollowsStatus(f, channel, encode);
    }
  }

  /** An event without `detail`, or whose build id is not a string, throws
      before any message is built. */
  lemma MissingBuildIdThrows(event: Json, channel: Option<string>, encode: string -> string)
    requires !HasStringBuildId(event)
    ensures ProcessEvent(event, channel, encode) == Err(TypeError)
  {
  }

  const ServerErrorPrefix := "Server error when processing message: "

  /** The callback argument once the response is in: null (`None`) for a
      success and for a client error, so Lambda does not retry; a message
      for a server error, so it does. */
  function ResponseOutcome(statusCode: int, statusMessage: string): (r: Option<string>)
    ensures r.None? <==> statusCode < 500
    ensures r.Some? ==> |ServerErrorPrefix| <= |r.value| && r.value[..|ServerErrorPrefix|] == ServerErrorPrefix
    ensures r.Some? ==> |statusMessage| <= |r.value| && r.value[|r.value| - |statusMessage|..] == statusMessage
  {
    if statusCode < 400 then None
    else if statusCode < 500 then None
    else Some(ServerErrorPrefix + Text.IntToString(statusCode) + " - " + statusMessage)
  }

  /** The retry message names the status code: its digits after the prefix
      read back as the code. */
  lemma ServerErrorNamesCode(statusCode: int, statusMessage: string)
    requires statusCode >= 500
    ensures var m := ResponseOutcome(statusCode, statusMessage).value;
            var digits := Text.NatToString(statusCode);
            && |ServerErrorPrefix| + |digits| <= |m|
            && Text.DigitsValue(m[|ServerErrorPrefix|..|ServerErrorPrefix| + |digits|]) == statusCode
  {
    var digits := Text.NatToString(statusCode);
    var m := ResponseOutcome(statusCode, statusMessage).value;
    assert m == ServerErrorPrefix + digits + " - " + statusMessage;
    assert m[|ServerErrorPrefix|..|ServerErrorPrefix| + |digits|] == digits;
    Text.NatToStringRoundTrip(statusCode);
  }
}
