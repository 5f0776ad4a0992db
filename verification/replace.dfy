/**
 * Placeholder substitution (src/lib/replace.js). Every variable name is
 * wrapped as `<name>`; the wrapped names, joined with `|`, form one
 * case-insensitive global pattern; the template is deep-copied through JSON
 * text, and every string at any depth of the copy has each pattern match
 * replaced by `String(newVariables[matched])`, the lookup using the matched
 * text exactly as it appears in the template.
 *
 * The pattern is modelled as literal alternatives tried in order at each
 * position, which is what the regular expression engine does for names
 * without pattern metacharacters. Case folding covers ASCII letters.
 */
module Replace {
  import opened JsValues
  import Text
  import Variables

  type Vars = Variables.Vars

  /** The placeholder for a variable: `<` + name + `>`. */
  function Token(name: string): (t: string)
    ensures |t| == |name| + 2 && t[0] == '<' && t[|t| - 1] == '>'
    ensures t[1..|t| - 1] == name
  {
    "<" + name + ">"
  }

  /** `adjustVariableNames(variables)`: the same values under the wrapped
      names, in the same order. */
  function AdjustVariableNames(vars: Vars): (r: Vars)
    ensures |r| == |vars|
    ensures forall i :: 0 <= i < |r| ==> r[i] == (Token(vars[i].0), vars[i].1)
  {
    if |vars| == 0 then [] else [(Token(vars[0].0), vars[0].1)] + AdjustVariableNames(vars[1..])
  }

  /** Looking up a wrapped name among the adjusted variables finds exactly
      what looking up the name finds among the variables, and a key that is
      not a placeholder is never found. */
  lemma {:induction false} AdjustedLookup(vars: Vars, key: string)
    ensures forall name :: key == Token(name) ==> Lookup(AdjustVariableNames(vars), key) == Lookup(vars, name)
    ensures (|key| < 2 || key[0] != '<' || key[|key| - 1] != '>') ==> Lookup(AdjustVariableNames(vars), key) == None
    decreases |vars|
  {
    if |vars| > 0 {
      AdjustedLookup(vars[1..], key);
      assert AdjustVariableNames(vars)[1..] == AdjustVariableNames(vars[1..]);
      forall name | key == Token(name)
        ensures Lookup(AdjustVariableNames(vars), key) == Lookup(vars, name)
      {
        assert Token(vars[0].0) == key <==> vars[0].0 == name by {
          if Token(vars[0].0) == key {
            assert vars[0].0 == Token(vars[0].0)[1..|key| - 1] == Token(name)[1..|key| - 1];
          }
        }
      }
    }
  }

  /** The names of the variables, in order. */
  function Names(vars: Vars): (r: seq<string>)
    ensures |r| == |vars| && forall i :: 0 <= i < |vars| ==> r[i] == vars[i].0
  {
    seq(|vars|, i requires 0 <= i < |vars| => vars[i].0)
  }

  /** The value stored for `name`, undefined when there is none. */
  function VarValue(vars: Vars, name: string): Option<Json>
  {
    match Lookup(vars, name)
    case Some(v) => v
    case None => None
  }

  /** The name whose placeholder is the alternative of `<n1>|<n2>|…` (flag
      `i`) that matches at the start of `s`: one whose placeholder does, and
      none when no placeholder does. Which one is `FirstMatchingNameIsFirst`. */
  function FirstMatchingName(s: string, names: seq<string>): (r: Option<string>)
    ensures r.Some? ==> r.value in names && Text.StartsWithIgnoreCase(s, Token(r.value))
    ensures r.None? <==> forall i :: 0 <= i < |names| ==> !Text.StartsWithIgnoreCase(s, Token(names[i]))
  {
    if |names| == 0 then None
    else if Text.StartsWithIgnoreCase(s, Token(names[0])) then Some(names[0])
    else
      var r := FirstMatchingName(s, names[1..]);
      assert forall i :: 1 <= i < |names| ==> names[i] == names[1..][i - 1];
      r
  }

  /** Alternatives are tried in the order listed: the name found is the
      first listed whose placeholder matches, no earlier one matching. */
  lemma {:induction false} FirstMatchingNameIsFirst(s: string, names: seq<string>)
    ensures FirstMatchingName(s, names).Some? ==>
              exists k :: 0 <= k < |names| && names[k] == FirstMatchingName(s, names).value
                          && forall j :: 0 <= j < k ==> !Text.StartsWithIgnoreCase(s, Token(names[j]))
    decreases |names|
  {
    if |names| > 0 && !Text.StartsWithIgnoreCase(s, Token(names[0])) {
      FirstMatchingNameIsFirst(s, names[1..]);
      if FirstMatchingName(s, names[1..]).Some? {
        var k :| 0 <= k < |names[1..]| && names[1..][k] == FirstMatchingName(s, names[1..]).value
                 && forall j :: 0 <= j < k ==> !Text.StartsWithIgnoreCase(s, Token(names[1..][j]));
        EarlierMissesShift(s, names, k);
      }
    }
  }

  /** Misses before index `k` of the tail, after a miss at the head, are
      misses before index `k + 1` of the whole list. */
  lemma EarlierMissesShift(s: string, names: seq<string>, k: int)
    requires 0 <= k < |names| - 1 && !Text.StartsWithIgnoreCase(s, Token(names[0]))
    requires forall j :: 0 <= j < k ==> !Text.StartsWithIgnoreCase(s, Token(names[1..][j]))
    ensures names[k + 1] == names[1..][k]
    ensures forall j :: 0 <= j < k + 1 ==> !Text.StartsWithIgnoreCase(s, Token(names[j]))
  {
    forall j | 0 < j < k + 1 ensures !Text.StartsWithIgnoreCase(s, Token(names[j])) {
      assert names[j] == names[1..][j - 1];
    }
  }

  /** No placeholder of any variable starts at the beginning of `s`. */
  predicate NoTokenAt(s: string, vars: Vars)
  {
    FirstMatchingName(s, Names(vars)).None?
  }

  /** One pass of `s.replace(regex, matched => newVariables[matched])` for a
      non-empty pattern: matches are found left to right, each is replaced
      by `String(newVariables[matched])` (undefined when the matched text is
      not a key, as for `<Project>` against the name `project`), and the
      scan resumes after the match, so inserted text is never rescanned. */
  function ScanReplace(s: string, vars: Vars): string
    decreases |s|
  {
    if |s| == 0 then ""
    else
      match FirstMatchingName(s, Names(vars))
      case Some(n) =>
        var len := |Token(n)|;
        ToStr(VarValue(AdjustVariableNames(vars), s[..len])) + ScanReplace(s[len..], vars)
      case None => [s[0]] + ScanReplace(s[1..], vars)
  }

  /** `s.replace(regex, …)` as written: with no variables the joined pattern
      is empty, it matches the empty string before every character and at
      the end, and each match is replaced by `String(undefined)`. */
  function ReplaceInString(s: string, vars: Vars): string
  {
    if |vars| == 0 then EmptyPatternReplace(s) else ScanReplace(s, vars)
  }

  function EmptyPatternReplace(s: string): string
    decreases |s|
  {
    if |s| == 0 then "undefined" else "undefined" + [s[0]] + EmptyPatternReplace(s[1..])
  }

  /** `deepMapValues(obj, cb)` for the callback of `replace`: objects and
      arrays are rebuilt entry by entry (arrays take the object branch, so
      the array branch of the source is never reached), strings go through
      `f`, other values are kept. */
  function DeepMap(j: Json, f: string -> string): Json
    decreases j
  {
    match j
    case Str(s) => Str(f(s))
    case Arr(xs) => Arr(MapItems(xs, f))
    case Obj(es) => Obj(MapEntries(es, f))
    case _ => j
  }

  function MapItems(xs: seq<Json>, f: string -> string): seq<Json>
    decreases xs
  {
    if |xs| == 0 then [] else [DeepMap(xs[0], f)] + MapItems(xs[1..], f)
  }

  function MapEntries(es: seq<(string, Json)>, f: string -> string): seq<(string, Json)>
    decreases es
  {
    if |es| == 0 then []
    else
      assert es[0] in es;
      assert es[0].1 < es[0];
      [(es[0].0, DeepMap(es[0].1, f))] + MapEntries(es[1..], f)
  }

  /** Same shape: the same keys in the same order, the same array lengths,
      strings where there were strings, and every other leaf equal. */
  predicate SameShape(a: Json, b: Json)
    decreases a
  {
    match a
    case Str(_) => b.Str?
    case Arr(xs) => b.Arr? && SameShapeItems(xs, b.items)
    case Obj(es) => b.Obj? && SameShapeEntries(es, b.entries)
    case _ => b == a
  }

  predicate SameShapeItems(xs: seq<Json>, ys: seq<Json>)
    decreases xs
  {
    |xs| == |ys| && (|xs| == 0 || (SameShape(xs[0], ys[0]) && SameShapeItems(xs[1..], ys[1..])))
  }

  predicate SameShapeEntries(es: seq<(string, Json)>, fs: seq<(string, Json)>)
    decreases es
  {
    && |es| == |fs|
    && (|es| == 0 ||
        (assert es[0] in es; assert es[0].1 < es[0];
         es[0].0 == fs[0].0 && SameShape(es[0].1, fs[0].1) && SameShapeEntries(es[1..], fs[1..])))
  }

  /** The strings of a value at every depth, in document order. */
  function Strings(j: Json): seq<string>
    decreases j
  {
    match j
    case Str(s) => [s]
    case Arr(xs) => ItemStrings(xs)
    case Obj(es) => EntryStrings(es)
    case _ => []
  }

  function ItemStrings(xs: seq<Json>): seq<string>
    decreases xs
  {
    if |xs| == 0 then [] else Strings(xs[0]) + ItemStrings(xs[1..])
  }

  function EntryStrings(es: seq<(string, Json)>): seq<string>
    decreases es
  {
    if |es| == 0 then []
    else
      assert es[0] in es;
      assert es[0].1 < es[0];
      Strings(es[0].1) + EntryStrings(es[1..])
  }

  /** `f` applied to every string of a sequence. */
  function Apply(ss: seq<string>, f: string -> string): (r: seq<string>)
    ensures |r| == |ss| && forall i :: 0 <= i < |ss| ==> r[i] == f(ss[i])
  {
    seq(|ss|, i requires 0 <= i < |ss| => f(ss[i]))
  }

  lemma ApplyAppend(a: seq<string>, b: seq<string>, f: string -> string)
    ensures Apply(a + b, f) == Apply(a, f) + Apply(b, f)
  {
  }

  /** The deep map keeps the shape of its input. */
  lemma {:induction false} DeepMapKeepsShape(j: Json, f: string -> string)
    ensures SameShape(j, DeepMap(j, f))
    decreases j
  {
    match j
    case Arr(xs) => ItemsKeepShape(xs, f);
    case Obj(es) => EntriesKeepShape(es, f);
    case _ =>
  }

  lemma {:induction false} ItemsKeepShape(xs: seq<Json>, f: string -> string)
    ensures SameShapeItems(xs, MapItems(xs, f))
    decreases xs
  {
    if |xs| > 0 {
      DeepMapKeepsShape(xs[0], f);
      ItemsKeepShape(xs[1..], f);
      assert MapItems(xs, f)[1..] == MapItems(xs[1..], f);
    }
  }

  lemma {:induction false} EntriesKeepShape(es: seq<(string, Json)>, f: string -> string)
    ensures SameShapeEntries(es, MapEntries(es, f))
    decreases es
  {
    if |es| > 0 {
      assert es[0] in es;
      assert es[0].1 < es[0];
      DeepMapKeepsShape(es[0].1, f);
      EntriesKeepShape(es[1..], f);
      assert MapEntries(es, f)[1..] == MapEntries(es[1..], f);
    }
  }

  /** The deep map sends every string, at any depth and in order, through
      `f`. */
  lemma {:induction false} DeepMapMapsEveryString(j: Json, f: string -> string)
    ensures Strings(DeepMap(j, f)) == Apply(Strings(j), f)
    decreases j
  {
    match j
    case Arr(xs) => ItemsMapStrings(xs, f);
    case Obj(es) => EntriesMapStrings(es, f);
    case _ =>
  }

  lemma {:induction false} ItemsMapStrings(xs: seq<Json>, f: string -> string)
    ensures ItemStrings(MapItems(xs, f)) == Apply(ItemStrings(xs), f)
    decreases xs
  {
    if |xs| > 0 {
      DeepMapMapsEveryString(xs[0], f);
      ItemsMapStrings(xs[1..], f);
      assert MapItems(xs, f)[1..] == MapItems(xs[1..], f);
      ApplyAppend(Strings(xs[0]), ItemStrings(xs[1..]), f);
    }
  }

  lemma {:induction false} EntriesMapStrings(es: seq<(string, Json)>, f: string -> string)
    ensures EntryStrings(MapEntries(es, f)) == Apply(EntryStrings(es), f)
    decreases es
  {
    if |es| > 0 {
      assert es[0] in es;
      assert es[0].1 < es[0];
      DeepMapMapsEveryString(es[0].1, f);
      EntriesMapStrings(es[1..], f);
      assert MapEntries(es, f)[1..] == MapEntries(es[1..], f);
      ApplyAppend(Strings(es[0].1), EntryStrings(es[1..]), f);
    }
  }

  /** A deep map whose function fixes every string of the value gives the
      value back. */
  lemma {:induction false} DeepMapFixesValue(j: Json, f: string -> string)
    requires forall i :: 0 <= i < |Strings(j)| ==> f(Strings(j)[i]) == Strings(j)[i]
    ensures DeepMap(j, f) == j
    decreases j
  {
    match j
    case Str(s) => assert Strings(j)[0] == s;
    case Arr(xs) => assert Strings(j) == ItemStrings(xs); ItemsFixed(xs, f);
    case Obj(es) => assert Strings(j) == EntryStrings(es); EntriesFixed(es, f);
    case _ =>
  }

  lemma {:induction false} ItemsFixed(xs: seq<Json>, f: string -> string)
    requires forall i :: 0 <= i < |ItemStrings(xs)| ==> f(ItemStrings(xs)[i]) == ItemStrings(xs)[i]
    ensures MapItems(xs, f) == xs
    decreases xs
  {
    if |xs| > 0 {
      var a, b := Strings(xs[0]), ItemStrings(xs[1..]);
      assert ItemStrings(xs) == a + b;
      assert forall i :: 0 <= i < |a| ==> (a + b)[i] == a[i];
      assert forall i :: 0 <= i < |b| ==> (a + b)[|a| + i] == b[i];
      DeepMapFixesValue(xs[0], f);
      ItemsFixed(xs[1..], f);
      assert xs == [xs[0]] + xs[1..];
    }
  }

  lemma {:induction false} EntriesFixed(es: seq<(string, Json)>, f: string -> string)
    requires forall i :: 0 <= i < |EntryStrings(es)| ==> f(EntryStrings(es)[i]) == EntryStrings(es)[i]
    ensures MapEntries(es, f) == es
    decreases es
  {
    if |es| > 0 {
      assert es[0] in es;
      assert es[0].1 < es[0];
      var a, b := Strings(es[0].1), EntryStrings(es[1..]);
      assert EntryStrings(es) == a + b;
      assert forall i :: 0 <= i < |a| ==> (a + b)[i] == a[i];
      assert forall i :: 0 <= i < |b| ==> (a + b)[|a| + i] == b[i];
      DeepMapFixesValue(es[0].1, f);
      EntriesFixed(es[1..], f);
      assert es == [es[0]] + es[1..];
      assert es[0] == (es[0].0, es[0].1);
    }
  }

  /** The callback `replace` maps every string through. */
  function Substitution(vars: Vars): string -> string
  {
    s => ScanReplace(s, vars)
  }

  /** `replaceVariablesInObject(obj, variables)`, with an empty variable set
      leaving strings alone. The deep copy goes through JSON text, so an
      undefined template makes `JSON.parse` throw; a template that is not an
      object or array comes back as copied, because the callback's result
      for it is discarded. */
  function Replace(template: Option<Json>, vars: Vars): (r: Result<Json>)
    ensures r.Err? <==> template.None?
    ensures r.Err? ==> r.error == SyntaxError
    ensures r.Ok? ==> SameShape(template.value, r.value)
    ensures r.Ok? && (template.value.Obj? || template.value.Arr?) ==>
              Strings(r.value) == Apply(Strings(template.value), Substitution(vars))
    ensures r.Ok? && !(template.value.Obj? || template.value.Arr?) ==> r.value == template.value
  {
    match template
    case None => Err(SyntaxError)
    case Some(t) =>
      if t.Obj? || t.Arr? then
        DeepMapKeepsShape(t, Substitution(vars));
        DeepMapMapsEveryString(t, Substitution(vars));
        Ok(DeepMap(t, Substitution(vars)))
      else
        DeepMapKeepsShape(t, s => s);
        assert SameShape(t, t) by {
          assert DeepMap(t, s => s) == t;
        }
        Ok(t)
  }

  /** The callback as written. */
  function SubstitutionAsWritten(vars: Vars): string -> string
  {
    s => ReplaceInString(s, vars)
  }

  /** `replaceVariablesInObject(obj, variables)` exactly as written,
      including the empty-pattern case. */
  function ReplaceAsWritten(template: Option<Json>, vars: Vars): (r: Result<Json>)
    ensures r.Err? <==> template.None?
    ensures r.Ok? ==> SameShape(template.value, r.value)
    ensures |vars| > 0 ==> r == Replace(template, vars)
  {
    match template
    case None => Err(SyntaxError)
    case Some(t) =>
      if t.Obj? || t.Arr? then
        DeepMapKeepsShape(t, SubstitutionAsWritten(vars));
        AsWrittenAgreesWhenNonEmpty(t, vars);
        Ok(DeepMap(t, SubstitutionAsWritten(vars)))
      else
        DeepMapKeepsShape(t, s => s);
        assert SameShape(t, t) by {
          assert DeepMap(t, s => s) == t;
        }
        Ok(t)
  }

  /** With at least one variable the callbacks as written and corrected
      agree on every value. */
  lemma AsWrittenAgreesWhenNonEmpty(t: Json, vars: Vars)
    ensures |vars| > 0 ==> DeepMap(t, SubstitutionAsWritten(vars)) == DeepMap(t, Substitution(vars))
  {
    if |vars| > 0 {
      assert forall s :: SubstitutionAsWritten(vars)(s) == Substitution(vars)(s);
      DeepMapAgrees(t, SubstitutionAsWritten(vars), Substitution(vars));
    }
  }

  /** Deep maps with pointwise-equal functions agree. */
  lemma {:induction false} DeepMapAgrees(j: Json, f: string -> string, g: string -> string)
    requires forall s :: f(s) == g(s)
    ensures DeepMap(j, f) == DeepMap(j, g)
    decreases j
  {
    match j
    case Arr(xs) => ItemsAgree(xs, f, g);
    case Obj(es) => EntriesAgree(es, f, g);
    case _ =>
  }

  lemma {:induction false} ItemsAgree(xs: seq<Json>, f: string -> string, g: string -> string)
    requires forall s :: f(s) == g(s)
    ensures MapItems(xs, f) == MapItems(xs, g)
    decreases xs
  {
    if |xs| > 0 {
      DeepMapAgrees(xs[0], f, g);
      ItemsAgree(xs[1..], f, g);
    }
  }

  lemma {:induction false} EntriesAgree(es: seq<(string, Json)>, f: string -> string, g: string -> string)
    requires forall s :: f(s) == g(s)
    ensures MapEntries(es, f) == MapEntries(es, g)
    decreases es
  {
    if |es| > 0 {
      assert es[0] in es;
      assert es[0].1 < es[0];
      DeepMapAgrees(es[0].1, f, g);
      EntriesAgree(es[1..], f, g);
    }
  }
  /** No variable name contains `>`, so a placeholder ends at its first
      `>`. */
  predicate NoCloseBracket(vars: Vars)
  {
    forall i :: 0 <= i < |vars| ==> '>' !in vars[i].0
  }

  /** A placeholder found where `<n>` stands in the text spans exactly
      `<n>`: a shorter or longer name would need a `>` inside one of the
      two names. */
  lemma PlaceholderMatchesWhole(n: string, m: string, s: string)
    requires '>' !in n && '>' !in m
    requires |Token(n)| <= |s| && s[..|Token(n)|] == Token(n)
    requires Text.StartsWithIgnoreCase(s, Token(m))
    ensures |m| == |n|
  {
  }

  /** No placeholder starts at a character other than `<`. */
  lemma NoTokenWithoutLessThan(s: string, vars: Vars)
    requires |s| > 0 && s[0] != '<'
    ensures NoTokenAt(s, vars)
  {
    var names := Names(vars);
    forall i | 0 <= i < |names| ensures !Text.StartsWithIgnoreCase(s, Token(names[i])) {
    }
  }

  /** Where no placeholder starts, the character is copied. */
  lemma ScanLiteral(s: string, vars: Vars)
    requires |s| > 0 && NoTokenAt(s, vars)
    ensures ScanReplace(s, vars) == [s[0]] + ScanReplace(s[1..], vars)
  {
  }

  /** Text at none of whose positions a placeholder starts is copied
      unchanged, and scanning carries on after it. */
  lemma {:induction false} VerbatimPrefix(s: string, k: nat, vars: Vars)
    requires k <= |s|
    requires forall i :: 0 <= i < k ==> NoTokenAt(s[i..], vars)
    ensures ScanReplace(s, vars) == s[..k] + ScanReplace(s[k..], vars)
    decreases k
  {
    if k == 0 {
      assert s[0..] == s;
    } else {
      var done := s[..k - 1];
      var rest := ScanReplace(s[k..], vars);
      calc {
        ScanReplace(s, vars);
      == { VerbatimPrefix(s, k - 1, vars); }
        done + ScanReplace(s[k - 1..], vars);
      == { Text.DropOneMore(s, k); ScanLiteral(s[k - 1..], vars); }
        done + ([s[k - 1]] + rest);
      == { Text.AppendAssoc(done, [s[k - 1]], rest); }
        (done + [s[k - 1]]) + rest;
      == { Text.TakeOneMore(s, k); }
        s[..k] + rest;
      }
    }
  }

  /** A string with no `<` in it is left unchanged. */
  lemma TextWithoutLessThanUnchanged(s: string, vars: Vars)
    requires '<' !in s
    ensures ScanReplace(s, vars) == s
  {
    forall i | 0 <= i < |s| ensures NoTokenAt(s[i..], vars) {
      NoTokenWithoutLessThan(s[i..], vars);
    }
    PlaceholderFreeUnchanged(s, vars);
  }

  /** No placeholder of any variable starts at any position of `s`. */
  predicate PlaceholderFree(s: string, vars: Vars)
  {
    forall i :: 0 <= i < |s| ==> NoTokenAt(s[i..], vars)
  }

  /** A string in which no placeholder of a variable starts anywhere is left
      unchanged, whatever else it contains (Slack links `<url|text>`
      included). */
  lemma PlaceholderFreeUnchanged(s: string, vars: Vars)
    requires PlaceholderFree(s, vars)
    ensures ScanReplace(s, vars) == s
  {
    VerbatimPrefix(s, |s|, vars);
    assert s[..|s|] == s;
    assert s[|s|..] == "";
  }

  /** A Slack link is not a placeholder: `<http://x|y>` is kept as is next
      to the variable `project`. */
  lemma SlackLinkKept(v: Option<Json>)
    ensures ScanReplace("<http://x|y>", [("project", v)]) == "<http://x|y>"
  {
    var s := "<http://x|y>";
    var vars := [("project", v)];
    assert Names(vars) == ["project"];
    forall i | 0 <= i < |s| ensures NoTokenAt(s[i..], vars) {
      if i == 0 {
        assert Text.Fold(s[1]) != Text.Fold(Token("project")[1]);
        assert !Text.StartsWithIgnoreCase(s[i..], Token("project"));
      } else {
        NoTokenWithoutLessThan(s[i..], vars);
      }
    }
    PlaceholderFreeUnchanged(s, vars);
  }

  /** A placeholder whose name differs from every variable name, even
      ignoring case, is left in the text verbatim. */
  lemma UnknownPlaceholderKept(x: string, rest: string, vars: Vars)
    requires '<' !in x && '>' !in x
    requires NoCloseBracket(vars)
    requires forall i :: 0 <= i < |vars| ==> !Text.EqualsIgnoreCase(vars[i].0, x)
    ensures ScanReplace(Token(x) + rest, vars) == Token(x) + ScanReplace(rest, vars)
  {
    var p := Token(x);
    var s := p + rest;
    forall i | 0 <= i < |p| ensures NoTokenAt(s[i..], vars) {
      if i == 0 {
        assert s[0..] == s;
        var names := Names(vars);
        forall k | 0 <= k < |names| ensures !Text.StartsWithIgnoreCase(s, Token(names[k])) {
          var m := names[k];
          if Text.StartsWithIgnoreCase(s, Token(m)) {
            assert s[..|p|] == p;
            PlaceholderMatchesWhole(x, m, s);
            assert false;
          }
        }
      } else {
        assert s[i..][0] == p[i];
        assert p[i] != '<' by {
          if i < |p| - 1 { assert p[i] == x[i - 1]; }
        }
        NoTokenWithoutLessThan(s[i..], vars);
      }
    }
    VerbatimPrefix(s, |p|, vars);
    assert s[..|p|] == p && s[|p|..] == rest;
  }

  /** The text as a sequence of literal characters and placeholders. */
  datatype Piece = Lit(c: char) | Placeholder(name: string)

  /** The text the pieces spell. */
  function Flat(ps: seq<Piece>): string
  {
    if |ps| == 0 then ""
    else (match ps[0] case Lit(c) => [c] case Placeholder(n) => Token(n)) + Flat(ps[1..])
  }

  /** The intended result: each placeholder replaced by its variable's
      value as a string, the literals kept. */
  function Render(ps: seq<Piece>, vars: Vars): string
  {
    if |ps| == 0 then ""
    else (match ps[0] case Lit(c) => [c] case Placeholder(n) => ToStr(VarValue(vars, n))) + Render(ps[1..], vars)
  }

  /** The pieces are how the scan reads the text: no placeholder starts at a
      literal, and every placeholder names a variable. */
  predicate Tokenizes(ps: seq<Piece>, vars: Vars)
  {
    |ps| == 0 ||
    ((match ps[0]
      case Lit(_) => NoTokenAt(Flat(ps), vars)
      case Placeholder(n) => n in Names(vars))
     && Tokenizes(ps[1..], vars))
  }

  /** Substitution replaces every placeholder of a variable by that
      variable's value and keeps everything else. */
  lemma {:induction false} ScanRendersPieces(ps: seq<Piece>, vars: Vars)
    requires NoCloseBracket(vars)
    requires Tokenizes(ps, vars)
    ensures ScanReplace(Flat(ps), vars) == Render(ps, vars)
    decreases |ps|
  {
    if |ps| > 0 {
      ScanRendersPieces(ps[1..], vars);
      var rest := Flat(ps[1..]);
      match ps[0]
      case Lit(c) =>
        assert Flat(ps) == [c] + rest;
        assert (Flat(ps))[1..] == rest;
        ScanLiteral(Flat(ps), vars);
      case Placeholder(n) =>
        assert Flat(ps) == Token(n) + rest;
        ScanPlaceholder(n, rest, vars);
    }
  }

  /** A placeholder of a variable at the front of the text is replaced by
      that variable's value, and scanning carries on right after it. */
  lemma ScanPlaceholder(n: string, rest: string, vars: Vars)
    requires NoCloseBracket(vars)
    requires n in Names(vars)
    ensures ScanReplace(Token(n) + rest, vars) == ToStr(VarValue(vars, n)) + ScanReplace(rest, vars)
  {
    var s := Token(n) + rest;
    PlaceholderFoundWhole(n, rest, vars);
    assert s[..|Token(n)|] == Token(n);
    AdjustedLookup(vars, Token(n));
    assert s[|Token(n)|..] == rest;
  }

  /** At a placeholder of a variable, the alternative the pattern takes
      spans exactly that placeholder. */
  lemma PlaceholderFoundWhole(n: string, rest: string, vars: Vars)
    requires NoCloseBracket(vars)
    requires n in Names(vars)
    ensures FirstMatchingName(Token(n) + rest, Names(vars)).Some?
    ensures |Token(FirstMatchingName(Token(n) + rest, Names(vars)).value)| == |Token(n)|
  {
    var s := Token(n) + rest;
    var names := Names(vars);
    assert s[..|Token(n)|] == Token(n);
    var k :| 0 <= k < |names| && names[k] == n;
    assert '>' !in n by { assert n == vars[k].0; }
    assert Text.StartsWithIgnoreCase(s, Token(names[k]));
    var m := FirstMatchingName(s, names).value;
    assert '>' !in m by {
      var j :| 0 <= j < |names| && names[j] == m;
      assert m == vars[j].0;
    }
    PlaceholderMatchesWhole(n, m, s);
  }

  /** Inserted values are not scanned again: a value that itself looks like
      a placeholder stays as it is. */
  lemma InsertedTextNotRescanned()
    ensures ScanReplace("<a>", [("a", Some(Str("<b>"))), ("b", Some(Str("x")))]) == "<b>"
  {
    var vars: Vars := [("a", Some(Str("<b>"))), ("b", Some(Str("x")))];
    var ps := [Placeholder("a")];
    assert Flat(ps) == "<a>";
    assert Names(vars)[0] == "a";
    ScanRendersPieces(ps, vars);
  }

  /** The pattern ignores case but the lookup does not: `<Project>` against
      the variable `project` is found and replaced by `undefined`. */
  lemma CaseVariantReadsUndefined()
    ensures ScanReplace("<Project>", [("project", Some(Str("lambda-slack")))]) == "undefined"
  {
    var vars: Vars := [("project", Some(Str("lambda-slack")))];
    var s := "<Project>";
    assert Names(vars) == ["project"];
    CaseVariantFound();
    assert s[..9] == "<Project>" && s[9..] == "";
    assert Token("project") == "<project>";
    assert AdjustVariableNames(vars)[0] == ("<project>", Some(Str("lambda-slack")));
    assert VarValue(AdjustVariableNames(vars), "<Project>") == None;
  }

  /** The pattern `<project>` with the `i` flag matches `<Project>`. */
  lemma CaseVariantFound()
    ensures FirstMatchingName("<Project>", ["project"]) == Some("project")
  {
    var s := "<Project>";
    assert Text.StartsWithIgnoreCase(s, Token("project")) by {
      assert s[..9] == s;
      assert Token("project") == "<project>";
    }
  }

  /** Finding: with no variables the joined pattern is empty and matches
      between all characters, so every string grows by `undefined` at each
      position, instead of being left alone. */
  lemma {:induction false} EmptyPatternInsertsUndefined(s: string)
    ensures |EmptyPatternReplace(s)| == |s| + 9 * (|s| + 1)
    ensures ReplaceInString(s, []) != s
    decreases |s|
  {
    if |s| > 0 {
      EmptyPatternInsertsUndefined(s[1..]);
    }
  }

  lemma EmptyPatternExample()
    ensures ReplaceInString("ab", []) == "undefinedaundefinedbundefined"
  {
    assert "ab"[1..] == "b";
    assert "b"[1..] == "";
  }

  /** Corrected: with no variables every string is left unchanged. */
  lemma {:induction false} NoVariablesNoChange(s: string)
    ensures ScanReplace(s, []) == s
    decreases |s|
  {
    if |s| > 0 {
      assert Names([]) == [];
      NoVariablesNoChange(s[1..]);
    }
  }

  /** A template in none of whose strings a placeholder of a variable starts
      comes back unchanged; its Slack links and other `<…>` text included. */
  lemma TemplateWithoutPlaceholdersUnchanged(t: Json, vars: Vars)
    requires forall i :: 0 <= i < |Strings(t)| ==> PlaceholderFree(Strings(t)[i], vars)
    ensures Replace(Some(t), vars) == Ok(t)
  {
    forall i | 0 <= i < |Strings(t)| ensures Substitution(vars)(Strings(t)[i]) == Strings(t)[i] {
      PlaceholderFreeUnchanged(Strings(t)[i], vars);
    }
    DeepMapFixesValue(t, Substitution(vars));
  }
}
