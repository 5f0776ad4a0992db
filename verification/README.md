# lambda-slack in Dafny

A model of lambda-slack. This AWS Lambda function turns an event, such as a
CodeBuild state change, into a Slack message, driven by a configuration of
notifications. Each notification definition has up to four parts:

- `match` rules: `$`-paths into the event, each mapped to a list of allowed
  values;
- `variables`: each one a `$`-path, or a rule table whose first matching
  candidate names the value;
- a `slackMessage` template with `<name>` placeholders;
- a `name`.

The engine runs in these steps:

1. It picks the first applicable definition.
2. It creates the definition's variables from the event.
3. It substitutes the variables into a deep copy of the template.
4. It posts the result to the template's webhook.

The model also covers the two older entry points. The first is the selection
logic of `src/index.js`, which has no `$` check and accepts bare-string rules.
The second is the hard-coded CodeBuild handler of the root `index.js`.

## The model

JSON values are the datatype `JsValues.Json`:

- Objects are ordered entry sequences, so `forOwn` visits keys in insertion
  order.
- Numbers are integers.
- JavaScript `undefined` is `None` of `Option<Json>`.

Every operation returns a `Result`, and its `Err` names what the JavaScript
code throws:

| error | what throws it |
|---|---|
| `MissingDollar` | a path without its leading `$` |
| `NotWrapped` | a rule value that is a bare string |
| `InvalidVariableDefinition` | a variable definition that is a number or boolean |
| `TypeError` | a property read on `null` or `undefined`, or a call of something that is not a function |
| `SyntaxError` | `JSON.parse` of the clone of an undefined template |

Property reads follow JavaScript: `JsValues.Member`, `JsValues.HasOwn`,
`JsValues.OwnEntries` and `JsValues.ToStr`. Prototype members are not
modelled.

The modules follow the source files:

| module | source file |
|---|---|
| `Extract` | `src/lib/extract.js` |
| `Match` | `src/lib/match.js` |
| `Pick` | `src/lib/pick.js` |
| `Variables` | `src/lib/create_variables.js` |
| `Replace` | `src/lib/replace.js` |
| `Engine` | `src/lib/lambda-slack.js` |
| `LegacyEngine` | `src/index.js` |
| `LegacyHandler` | `index.js` |

`Text` holds the string helpers (split, join, case folding, decimal
rendering) and `JsValues` the value model.

### Where the model departs from the code as written

- **Argument order of `pick`.** `src/lib/pick.js:31` declares
  `pickNotification(payload, notificationsConfig)`. Its callers
  (`src/lib/lambda-slack.js:14`, `test/test.js:101`, `test/test.js:110`) pass
  the configuration first.
  - `Pick.PickNotification` models the declared order.
  - `Pick.Pick` passes the arguments by role. It is what the callers and the
    tests expect, and it is what `Engine` uses.
- **Empty variable set in `replace`.** With no variables, `replace` builds an
  empty pattern (`src/lib/replace.js:47`).
  - `Replace.ReplaceAsWritten` models that pattern.
  - `Replace.Replace` leaves strings unchanged instead. `Engine` uses it.
- **Module name.** `src/lib/lambda-slack.js:1` requires `./variables`, but
  the module is `create_variables.js`. The model wires the pipeline to
  `Variables.CreateVariables`.
- **Array branch of `deepMapValues`.** The `Array` branch at
  `src/lib/replace.js:33` is unreachable, because arrays are
  `instanceof Object`. Arrays take the `assignIn`/`mapValues` branch
  (`Replace.DeepMap`).

## Model

| member | source | states |
|---|---|---|
| `JsValues.HasOwn` | src/lib/pick.js:34 | `hasOwnProperty.call` throws exactly on null; on an object it is true iff the key is present |
| `JsValues.ToStr` | src/lib/replace.js:53 | `String(v)`: a string converts to itself, undefined to `undefined` |
| `Text.LastSegmentIsSuffix` | index.js:37-38 | `split(sep).pop()` is a separator-free suffix, either the whole string or preceded by the separator |
| `Text.ContainsIffOccurs` | src/index.js:56 | the substring search succeeds iff the needle occurs at some index |
| `Extract.ExtractValue` | src/lib/extract.js:11-18 | extraction fails iff the path lacks the leading `$`, with that error; every `$`-path yields a value or undefined |
| `Extract.Walk` | src/lib/extract.js:17 | no contract of its own; `Extract.WalkIsMemberChain` relates it to plain property reads |
| `Extract.Get` | src/lib/extract.js:17 | an empty key list yields undefined; for other key lists `Extract.WalkIsMemberChain` characterises it |
| `Extract.ExtractFollowsKeyChain` | src/lib/extract.js:15-17 | `$.k1.….kn` gives exactly `obj[k1]…[kn]` when that chain of reads succeeds, and undefined where a read would throw |
| `Extract.WalkIsMemberChain` | src/lib/extract.js:17 | the key walk agrees with plain property reads where they succeed, and gives undefined at a missing or non-object intermediate |
| `Extract.FirstSegmentIgnored` | src/lib/extract.js:15-16 | `$x.rest` and `$.rest` resolve identically |
| `Extract.BareDollarIsUndefined` | src/lib/extract.js:15-17 | the path `$` alone walks no keys and yields undefined |
| `Match.Includes` | src/lib/match.js:20 | `includes` holds iff the value is a primitive that is an element of the list; undefined and objects never are |
| `Match.CheckEntry` | src/lib/match.js:16-22 | one rule entry succeeds iff its value is a list and its key a `$`-path; a bare string raises `NotWrapped`, a key without `$` raises `MissingDollar`; the result is list membership of the extracted value |
| `Match.MatchEntries` | src/lib/match.js:14-25 | all entries are evaluated; the result is their conjunction; the first raising entry decides the error |
| `Match.MatchRules` | src/lib/match.js:14-25 | absent rules hold; the rules raise iff some value is not a list or some key lacks the `$`; otherwise they hold iff every path's extracted value is in its list |
| `Match.MatchIsConjunction` | src/lib/match.js:16-24 | a rule object raises iff it is malformed, and otherwise holds iff every path's extracted value is in its list |
| `Match.EmptyRulesMatch` | src/lib/match.js:15-24 | an empty or absent rule object matches every payload |
| `Match.BareStringRaisesAfterMismatch` | src/lib/match.js:16-22 | a bare-string value raises even after earlier entries failed to match |
| `Match.KeyWithoutDollarRaises` | src/lib/match.js:20 | a key without the leading `$` raises through extraction |
| `Match.UnresolvedPathFails` | src/lib/match.js:20 | a well-formed rule whose path does not resolve makes the whole rule false |
| `Pick.FirstApplicable` | src/lib/pick.js:32-44 | the result is `false` iff no definition applies; otherwise it is the first definition that applies, every earlier one not applying; an error comes from the first definition that raises |
| `Pick.LaterNotificationsIgnored` | src/lib/pick.js:37-41 | once a definition is selected or raises, definitions after it cannot change the outcome |
| `Pick.MatchNotification` | src/lib/pick.js:12-23 | a null notification throws; one without own `match` rules holds; otherwise it raises iff its rules are malformed |
| `Pick.PickNotification` | src/lib/pick.js:31-45 | over the entries of its second argument: `false` iff none applies for the first argument, otherwise the first entry that applies, every earlier one not applying; an error comes from the first entry that raises, every earlier one not applying |
| `Pick.Pick` | src/lib/pick.js:31-45 | over the configured definitions: `false` iff none applies to the event, otherwise the first definition that applies, every earlier one not applying; an error comes from the first definition that raises, every earlier one not applying |
| `Pick.PickIsFirstApplicable` | src/lib/pick.js:31-45 | over a list of definitions, selection returns one of them unchanged, the first that applies; `false` when none does, including for an empty list |
| `Pick.DefinitionWithoutMatchApplies` | src/lib/pick.js:40-42 | a definition without `match` is selected whenever it is reached |
| `Pick.DefinitionWithMatchApplies` | src/lib/pick.js:12-23 | a definition with `match` applies exactly when its rules hold (raising as the rules raise) |
| `Pick.FirstOfTwoMatchingWins` | src/lib/pick.js:35-38 | of two applicable definitions the first listed is selected |
| `Pick.NonMatchingIsSkipped` | src/lib/pick.js:35-38 | a non-matching definition is skipped and the next applicable one selected |
| `Pick.CallSiteArgumentSwap` | src/lib/pick.js:31 | with the parameters as declared, the configuration-first call of the tests selects nothing, and a real event is walked as if it were the configuration |
| `Variables.CandidateMatches` | src/lib/create_variables.js:43 | a null candidate throws; a candidate without `match` matches; otherwise its rules decide |
| `Variables.FirstCandidate` | src/lib/create_variables.js:41-48 | a rule table gives `''` when no candidate matches, else the key of the first matching candidate; an error comes from the first raising candidate |
| `Variables.ResolveDefinition` | src/lib/create_variables.js:37-52 | a string definition is extracted uncoerced; a number or boolean throws; an object, array or null definition yields the key of its first matching candidate as a string (`''` when none matches), or the error of the first candidate that raises |
| `Variables.ResolveAll` | src/lib/create_variables.js:34-55 | creation succeeds iff every definition resolves; the variables have the configured names in order with their resolved values; the first raising definition decides the error |
| `Variables.CreateVariables` | src/lib/create_variables.js:34-55 | no configuration gives no variables; creation succeeds iff every configured definition resolves, and then yields one variable per entry, in order, under the entry's name with the resolved value; otherwise the error is that of the first definition that raises, every earlier one resolving |
| `Variables.CreatedNamesAreConfigured` | src/lib/create_variables.js:35-54 | the created variables have exactly the configuration's names, in order |
| `Variables.UnresolvedPathStaysUndefined` | src/lib/create_variables.js:37-38 | a path that does not resolve stores undefined, not `''` |
| `Variables.UnmatchedTableIsEmptyString` | src/lib/create_variables.js:41-48 | a table with no matching candidate gives `''` without raising |
| `Variables.FirstMatchingCandidateWins` | src/lib/create_variables.js:40-47 | the first matching candidate's key wins, whatever follows it |
| `Variables.ErrorsPropagate` | src/lib/create_variables.js:38-43 | the first definition that raises aborts creation with its error unchanged |
| `Replace.Token` | src/lib/replace.js:19 | a placeholder is `<`, the name, `>` |
| `Replace.AdjustVariableNames` | src/lib/replace.js:16-22 | the adjusted variables are the same values, in order, under the wrapped names |
| `Replace.AdjustedLookup` | src/lib/replace.js:16-22 | looking up `<n>` among the adjusted variables finds what looking up `n` finds; a key that is not a placeholder is never found |
| `Replace.ScanReplace` | src/lib/replace.js:47-53 | no contract of its own; `Replace.ScanRendersPieces`, `Replace.PlaceholderFreeUnchanged` and `Replace.UnknownPlaceholderKept` characterise it |
| `Replace.ReplaceInString` | src/lib/replace.js:47-53 | no contract of its own; with no variables `Replace.EmptyPatternInsertsUndefined` and `Replace.EmptyPatternExample` characterise it, and with variables it is the scan `Replace.ScanReplace` |
| `Replace.DeepMap` | src/lib/replace.js:30-37 | no contract of its own; `Replace.DeepMapKeepsShape`, `Replace.DeepMapMapsEveryString` and `Replace.DeepMapFixesValue` characterise it |
| `Replace.FirstMatchingName` | src/lib/replace.js:47 | the alternative that matches at a position is a listed name whose placeholder matches there ignoring case; none iff no listed placeholder matches there |
| `Replace.FirstMatchingNameIsFirst` | src/lib/replace.js:47 | of the alternatives that match at a position, the one taken is the first listed: no name before it has a placeholder that matches there |
| `Replace.DeepMapKeepsShape` | src/lib/replace.js:30-37 | the deep map keeps keys, key order, array lengths and non-string leaves |
| `Replace.DeepMapMapsEveryString` | src/lib/replace.js:30-37 | every string at any depth, in document order, goes through the callback |
| `Replace.DeepMapFixesValue` | src/lib/replace.js:30-37 | a callback that fixes every string of a value gives the value back |
| `Replace.Replace` | src/lib/replace.js:45-58 | an undefined template fails to parse; otherwise the result has the template's shape, and an object or array has each string substituted |
| `Replace.ReplaceAsWritten` | src/lib/replace.js:45-58 | as written: the same shape and errors, and the same result as `Replace.Replace` whenever there is a variable |
| `Replace.VerbatimPrefix` | src/lib/replace.js:53 | text at none of whose positions a placeholder starts is copied unchanged |
| `Replace.TextWithoutLessThanUnchanged` | src/lib/replace.js:53 | a string without `<` is left unchanged |
| `Replace.PlaceholderFreeUnchanged` | src/lib/replace.js:47-53 | a string at none of whose positions a placeholder of a variable starts is left unchanged, whatever `<` it contains |
| `Replace.SlackLinkKept` | src/lib/replace.js:47-53 | a Slack link to `http://x` with the text `y`, next to the variable `project`, is kept as is, whatever the variable's value |
| `Replace.UnknownPlaceholderKept` | src/lib/replace.js:47-53 | when no variable name contains `>`: `<x>`, for an `x` that is no variable name even ignoring case, is kept verbatim and scanning resumes after it |
| `Replace.ScanRendersPieces` | src/lib/replace.js:47-53 | every placeholder of a variable is replaced by that variable's value as a string, and all other text is kept |
| `Replace.ScanPlaceholder` | src/lib/replace.js:47-53 | a placeholder of a variable at the front of a string is replaced by that variable's value as a string, and scanning resumes right after it |
| `Replace.PlaceholderFoundWhole` | src/lib/replace.js:47 | at a placeholder of a variable the pattern finds an alternative, and the alternative it takes spans exactly that placeholder |
| `Replace.InsertedTextNotRescanned` | src/lib/replace.js:53 | one left-to-right pass: an inserted value that looks like a placeholder stays literal |
| `Replace.CaseVariantReadsUndefined` | src/lib/replace.js:47-53 | the pattern ignores case but the lookup does not: `<Project>` for variable `project` becomes `undefined` |
| `Replace.EmptyPatternInsertsUndefined` | src/lib/replace.js:47 | as written, with no variables every string grows by nine characters per position and so changes |
| `Replace.EmptyPatternExample` | src/lib/replace.js:47-53 | as written, `ab` with no variables becomes `undefinedaundefinedbundefined` |
| `Replace.NoVariablesNoChange` | src/lib/replace.js:47-53 | corrected: with no variables every string is unchanged |
| `Replace.TemplateWithoutPlaceholdersUnchanged` | src/lib/replace.js:47-56 | a template in none of whose strings a placeholder of a variable starts, at any position, comes back equal; Slack links and other `<…>` text included |
| `Engine.ProcessEvent` | src/lib/lambda-slack.js:12-23 | a selection error propagates; nothing is posted iff nothing (or `false`) is selected; a selected definition other than `false` gives exactly the outcome of delivering it (`Engine.Deliver`: create its variables, substitute its template, post), errors included; every post comes from delivering one of the configured definitions |
| `Engine.Deliver` | src/lib/lambda-slack.js:20-22 | a null notification throws; a post goes to the unsubstituted template's webhook, under the notification's name, with a body of the template's shape |
| `Engine.PostCarriesSubstitutedTemplate` | src/lib/lambda-slack.js:20-22 | exactly one post for a notification with an object or array template: to the template's webhook, under the notification's name, with the template substituted by the variables created from the notification's definitions and the event |
| `Engine.BodyStringsAreSubstituted` | src/lib/lambda-slack.js:20-21 | the posted body's strings are the template's strings with the variables substituted |
| `Engine.VariableErrorAborts` | src/lib/lambda-slack.js:20-22 | an error creating variables aborts before posting, with that error |
| `Engine.MissingTemplateAborts` | src/lib/lambda-slack.js:21 | a notification without a template aborts with a parse error |
| `Engine.NoVariablesPostsTemplateAsIs` | src/lib/lambda-slack.js:20-22 | corrected: a notification without variables posts its template unchanged |
| `LegacyEngine.LegacyExtractAgrees` | src/index.js:41-45 | on `$`-paths the older extraction agrees with the checked one, and on other paths only the checked one raises |
| `LegacyEngine.ExtractValueLegacy` | src/index.js:41-45 | no contract of its own; `LegacyEngine.LegacyExtractAgrees` and `LegacyEngine.LegacyFirstSegmentIgnored` characterise it |
| `LegacyEngine.LegacyFirstSegmentIgnored` | src/index.js:42-44 | whatever the first segment, only the later ones are walked; a path without `.` reads undefined |
| `LegacyEngine.CheckEntryLegacy` | src/index.js:55-59 | a list tests membership, a bare string tests whether the extracted value as text occurs in it, anything else throws |
| `LegacyEngine.MatchEntriesLegacy` | src/index.js:53-61 | every entry is evaluated; the result is their conjunction |
| `LegacyEngine.MatchLegacy` | src/index.js:53-61 | a null notification throws; one without own `match` rules holds; otherwise it raises iff some rule value is neither a list nor a string, and its result is that of the legacy entry loop over the rules: list membership or substring test per entry, without a `$` check on the keys |
| `LegacyEngine.PickLegacy` | src/index.js:68-82 | `false` iff no notification applies; otherwise the first that applies, every earlier one not applying; an error comes from the first notification that raises, every earlier one not applying |
| `LegacyEngine.LegacyMatchAgrees` | src/index.js:53-61 | on well-formed rules the older matching agrees with the newer one |
| `LegacyEngine.LegacyPickAgrees` | src/index.js:68-82 | when every definition has well-formed rules, the older selection picks what the newer one picks |
| `LegacyEngine.BareStringIsSubstringTest` | src/index.js:56 | a bare-string rule holds whenever the extracted value occurs in it as text, where the newer version raises |
| `LegacyEngine.BareStringExample` | src/index.js:56 | `{"$.source": "aws.codebuild"}` holds for the source `codebuild` |
| `LegacyEngine.MissingPathMatchesUndefinedText` | src/index.js:41-59 | a missing path reads as the text `undefined`, so a bare-string rule containing that word holds |
| `LegacyHandler.BuildIds` | index.js:36-38 | the build id follows the last `/` of the ARN and the UUID the last `:` of the build id |
| `LegacyHandler.Content` | index.js:44-64 | `FAILED` has colour `#e8674a`, `STOPPED` `#f2cd90`, every other status `#abc8b6` |
| `LegacyHandler.UnknownStatusIsSuccess` | index.js:44-51 | any other status, a missing one included, gets exactly the `SUCCEEDED` content |
| `LegacyHandler.FallbackNamesBuild` | index.js:47-59 | every fallback names the project and ends with the build UUID and a full stop |
| `LegacyHandler.MessageJson` | index.js:66-102 | the serialised message is an object that starts with the channel when one is set and omits it otherwise |
| `LegacyHandler.ReadEvent` | index.js:36-44 | the event is read iff its build ARN is a string and the chain `detail` → `additional-information` → `logs` → `deep-link` reads without throwing; the log link is what that chain yields, the other fields are what the event holds, and the only error is a `TypeError` |
| `LegacyHandler.ComposeMessage` | index.js:66-102 | the message has the fixed username and icon, the configured channel, and exactly one attachment with five fields |
| `LegacyHandler.FieldLayout` | index.js:74-100 | the fields are Project, Status, Build, Full log and Build ID, with `short` false, false, true, true, false; Project is the project name as read, Build ID the text after the ARN's last `/`, Build the `View build` link to the console page of that id, and Full log the `View full log` link to the log link |
| `LegacyHandler.ColourFollowsStatus` | index.js:44-64 | the attachment colour is `#e8674a` exactly for `FAILED`, `#f2cd90` exactly for `STOPPED`, and `#abc8b6` otherwise |
| `LegacyHandler.ProcessEvent` | index.js:35-102 | the handler builds a message iff the event can be read, that is iff the build ARN is a string and the log-link chain reads without throwing; its only error is a `TypeError` |
| `LegacyHandler.MessageFollowsEvent` | index.js:36-98 | for every accepted event, Project carries `detail['project-name']`, Build ID the text after the last `/` of `detail['build-id']`, Full log links to `detail['additional-information'].logs['deep-link']`, and the colour is `#e8674a` iff `detail['build-status']` is `FAILED`, `#f2cd90` iff it is `STOPPED`, `#abc8b6` otherwise |
| `LegacyHandler.MissingBuildIdThrows` | index.js:36-37 | an event without a string build id throws |
| `LegacyHandler.ResponseOutcome` | index.js:104-118 | no retry (null) iff the status code is below 500; otherwise a message that starts with the server-error prefix and ends with the status message |
| `LegacyHandler.ServerErrorNamesCode` | index.js:116 | the retry message's digits after the prefix read back as the status code |

## Left out

- HTTP delivery is not modelled, because it is I/O. This covers `src/lib/post.js`, `postMessage` in `index.js` and `post` in `src/index.js`. `Engine.Outcome` stands for the call of `post`, and `LegacyHandler.ResponseOutcome` for the decision taken on the response.
- The Lambda `handler` exports and `processEvent` of `src/index.js` are not modelled: they only log the selection, so only `LegacyEngine.PickLegacy` is modelled.
- Console logging is not modelled.
- Configuration loading via `require` is replaced by parameters. So are the environment's `slackChannel` and `encodeURI`.
- The regular expression engine is not modelled. Placeholders are matched as literal alternatives. Names with pattern metacharacters are out of scope, and so is case folding beyond ASCII letters.
- Prototype members, and the own `length` and index properties of strings and arrays, are not modelled as property reads: a read on a string, array, number or boolean (`JsValues.Member`, and the key walk of lodash `get`) gives undefined. For example, `'abc'.match` gives undefined where JavaScript gives the built-in method, and `$.x.length` with `x` the string `abc` gives undefined where lodash `get` gives 3. `JsValues.HasOwn` and `JsValues.OwnEntries` do see the own `length` and index keys.
- Numeric path segments are not modelled. lodash `get` indexes arrays with them; here a path walks objects only.
- JavaScript's ordering of integer-like keys first is not modelled; insertion order is used throughout.
- Duplicate keys are not modelled. Objects are entry sequences, and a read finds the first entry for a key. JavaScript objects cannot hold duplicates.
- Floating-point numbers are not modelled. `Text.IntToString` renders every integer in plain decimal digits, which agrees with JavaScript's `String` only for magnitudes below 1e21, where JavaScript switches to exponent notation.
- `encodeURI` can throw on lone surrogates; that error is not modelled.
- Strings are sequences of Unicode scalar values, not of UTF-16 code units. Outside the Basic Multilingual Plane the two differ: a string's indexed keys (`JsValues.HasOwn`, `JsValues.OwnEntries`) and the positions where the empty pattern inserts `undefined` (`Replace.EmptyPatternReplace`) count one character where JavaScript counts two. For example, JavaScript inserts `undefined` three times into a single emoji, the model twice. Lone surrogates cannot be represented.
- The template is never modified in place. This holds by construction, because every value is immutable; the clone step of `replace` is the identity on JSON values.
- `LegacyHandler.MessageJson`: states only the channel entry. It does not state the layout of the serialised message; `LegacyHandler.ComposeMessage` does that, on the message before serialisation.
- `Replace.ScanRendersPieces`: assumes that no variable name contains `>`. Such a name can make a longer placeholder swallow a shorter one.
- `Replace.ScanPlaceholder`: assumes the same of the variable names, for the same reason.
- `Replace.PlaceholderFoundWhole`: assumes the same of the variable names, for the same reason.
- `Replace.UnknownPlaceholderKept`: assumes the same of the variable names. A name such as `a>b` would make `<a>` the start of a longer placeholder.

## Findings

| source | as written | input that shows it | evidently intended | confidence | as-written member | corrected member |
|---|---|---|---|---|---|---|
| src/lib/pick.js:31 | `pickNotification(payload, notificationsConfig)`, while every caller passes the configuration first | `pick([{name: 'n'}], {})` walks the empty event and returns `false` | select from the definitions for the event, by role | high (not executed) | `Pick.CallSiteArgumentSwap` | `Pick.Pick` |
| src/lib/replace.js:47 | the pattern is the variable names joined with `\|`, which is empty when there are no variables | a notification without `variables`: the string `ab` becomes `undefinedaundefinedbundefined` | leave strings unchanged when there is nothing to substitute | high (not executed) | `Replace.EmptyPatternInsertsUndefined` | `Replace.NoVariablesNoChange` |
