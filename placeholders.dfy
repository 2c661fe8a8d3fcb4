/**
 * The label and value passes of `NINJA.decodeJavascript`.  A template holds
 * placeholders such as `"$invoiceNumberLabel:"` (the translated label of a
 * field) and `"$client.name"` (the value of a field of the invoice record);
 * each pass replaces every placeholder it finds by its resolved text.  The
 * regular-expression scan that finds the placeholders is not modelled: a pass
 * receives the matches in the order the scan yields them.
 */
module Placeholders {
  import opened Wrappers
  import opened Text

  // ------------------------------------------------------- script values

  /** A value of the invoice record as the script sees it; numbers are held in thousandths. */
  datatype JsValue =
    | Undefined
    | Null
    | Bool(b: bool)
    | Num(milli: int)
    | Str(s: string)
    | Obj(fields: map<string, JsValue>)

  /** The script's truthiness: `undefined`, `null`, `false`, `0` and `""` are falsy. */
  predicate Truthy(v: JsValue)
  {
    match v
    case Undefined => false
    case Null => false
    case Bool(b) => b
    case Num(m) => m != 0
    case Str(s) => s != ""
    case Obj(_) => true
  }

  /** `v[key]`: the named field of an object; any other value has no fields. */
  function Member(v: JsValue, key: string): JsValue
  {
    if v.Obj? && key in v.fields then v.fields[key] else Undefined
  }

  /** How `'"' + v + '"'` turns a value into text. */
  function Stringify(v: JsValue): string
  {
    match v
    case Undefined => "undefined"
    case Null => "null"
    case Bool(b) => if b then "true" else "false"
    case Num(m) => RateText(m)
    case Str(s) => s
    case Obj(_) => "[object Object]"
  }

  // ------------------------------------------------------- string builtins

  /** `s.split(sep)` with a one-character separator: the pieces between separators. */
  function Split(s: string, sep: char): (r: seq<string>)
    ensures |r| >= 1
    ensures forall i :: 0 <= i < |r| ==> sep !in r[i]
  {
    if s == [] then [""]
    else
      var rest := Split(s[1..], sep);
      if s[0] == sep then [""] + rest
      else [[s[0]] + rest[0]] + rest[1..]
  }

  /** The inverse of `Split`: the pieces joined by the separator. */
  function JoinWith(parts: seq<string>, sep: char): string
    requires |parts| >= 1
  {
    if |parts| == 1 then parts[0] else parts[0] + [sep] + JoinWith(parts[1..], sep)
  }

  /** Splitting loses nothing: joining the pieces gives the string back. */
  lemma {:induction false} SplitJoin(s: string, sep: char)
    ensures JoinWith(Split(s, sep), sep) == s
  {
    if s != [] {
      var rest := Split(s[1..], sep);
      SplitJoin(s[1..], sep);
      if s[0] == sep {
        assert ([""] + rest)[1..] == rest;
      } else {
        var parts := [[s[0]] + rest[0]] + rest[1..];
        if |rest| > 1 {
          assert parts[1..] == rest[1..];
          assert JoinWith(rest, sep) == rest[0] + [sep] + JoinWith(rest[1..], sep);
        }
      }
    }
  }

  /** A name without the separator is a path of one step. */
  lemma {:induction false} SplitWithoutSeparator(s: string, sep: char)
    requires sep !in s
    ensures Split(s, sep) == [s]
  {
    if s != [] {
      SplitWithoutSeparator(s[1..], sep);
      assert [s[0]] + s[1..] == s;
    }
  }

  /** `s.substring(a, b)`: both ends are clamped to the string, and swapped when reversed. */
  function Substring(s: string, a: int, b: int): string
  {
    var x := if a < 0 then 0 else if a > |s| then |s| else a;
    var y := if b < 0 then 0 else if b > |s| then |s| else b;
    if x <= y then s[x..y] else s[y..x]
  }

  /** `s.indexOf(pat)`: the first position of `pat`, or -1. */
  function JsIndexOf(s: string, pat: string): int
  {
    match IndexOf(s, pat)
    case None => -1
    case Some(i) => i
  }

  /** `s.replace(pat, rep)`: the first occurrence of `pat` becomes `rep`, read as a replacement string. */
  function JsReplace(s: string, pat: string, rep: string): string
  {
    match IndexOf(s, pat)
    case None => s
    case Some(i) => ReplaceFirst(s, pat, ExpandReplacement(rep, s[..i], pat, s[i + |pat|..]))
  }

  predicate EndsWith(s: string, suffix: string)
  {
    |suffix| <= |s| && s[|s| - |suffix|..] == suffix
  }

  /**
   * A placeholder `"$` + name + pat + rest, where pat begins with a character
   * that occurs nowhere else in it and name does not contain pat: the first
   * occurrence of pat is the one right after the name.
   */
  lemma NameEndsAtPattern(name: string, pat: string, rest: string)
    requires |pat| >= 1 && pat[0] != '"' && pat[0] != '$'
    requires forall k :: 1 <= k < |pat| ==> pat[k] != pat[0]
    requires !Contains(name, pat)
    ensures IndexOf("\"$" + name + pat + rest, pat) == Some(2 + |name|)
  {
    var m := "\"$" + name + pat + rest;
    var p := 2 + |name|;
    assert m[p..p + |pat|] == pat;
    assert OccursAt(m, pat, p);
    forall j | 0 <= j < p
      ensures !OccursAt(m, pat, j)
    {
      if j < 2 {
        assert m[j] != pat[0];
      } else if j + |pat| <= p {
        assert m[j..j + |pat|] == name[j - 2..j - 2 + |pat|];
        assert !OccursAt(name, pat, j - 2);
      } else {
        assert m[p] == pat[0];
        assert j + |pat| <= |m| ==> m[j..j + |pat|][p - j] == m[p];
      }
    }
  }

  // ------------------------------------------------------- getDescendantProp

  /**
   * What `getDescendantProp` returns for a path: it follows the steps while the
   * value reached is truthy and returns the first falsy value it meets.
   */
  function Descend(obj: JsValue, path: seq<string>): JsValue
  {
    if path == [] then obj
    else
      var next := Member(obj, path[0]);
      if Truthy(next) then Descend(next, path[1..]) else next
  }

  /** `getDescendantProp(obj, desc)`: the loop that walks the dotted path. */
  method GetDescendantProp(obj: JsValue, desc: string) returns (r: JsValue)
    ensures r == Descend(obj, Split(desc, '.'))
  {
    var arr := Split(desc, '.');
    r := obj;
    while |arr| > 0
      invariant Descend(obj, Split(desc, '.')) == Descend(r, arr)
    {
      r := Member(r, arr[0]);
      arr := arr[1..];
      if !Truthy(r) {
        break;
      }
    }
  }

  /** Plain member access along the whole path: `obj.a.b.c`, missing fields giving `undefined`. */
  function Walk(obj: JsValue, path: seq<string>): JsValue
    decreases path
  {
    if path == [] then obj else Walk(Member(obj, path[0]), path[1..])
  }

  lemma {:induction false} WalkFromFalsy(v: JsValue, path: seq<string>)
    requires !Truthy(v) && path != []
    ensures Walk(v, path) == Undefined
    decreases path
  {
    if |path| > 1 {
      WalkFromFalsy(Member(v, path[0]), path[1..]);
    }
  }

  /**
   * Stopping at a falsy step never hides a value: the walk is truthy exactly
   * when plain member access is, and then both give the same value.
   */
  lemma {:induction false} DescendAgreesWithWalk(obj: JsValue, path: seq<string>)
    ensures Truthy(Descend(obj, path)) <==> Truthy(Walk(obj, path))
    ensures Truthy(Descend(obj, path)) ==> Descend(obj, path) == Walk(obj, path)
  {
    if path != [] {
      var next := Member(obj, path[0]);
      if Truthy(next) {
        DescendAgreesWithWalk(next, path[1..]);
      } else if |path| > 1 {
        WalkFromFalsy(next, path[1..]);
      }
    }
  }

  // ------------------------------------------------------- doubleDollarSign

  /** `doubleDollarSign`: a falsy value becomes "", a string has every `$` doubled, anything else is kept. */
  function DoubleDollarSign(v: JsValue): (r: JsValue)
    ensures !Truthy(v) ==> r == Str("")
    ensures !v.Str? && Truthy(v) ==> r == v
  {
    if !Truthy(v) then Str("")
    else match v
      case Str(s) => Str(DoubleDollars(s))
      case _ => v
  }

  /** Reading a replacement string expands the doubled dollars and keeps what follows. */
  lemma {:induction false} ExpandAfterDoubling(s: string, t: string, before: string, matched: string, after: string)
    ensures ExpandReplacement(DoubleDollars(s) + t, before, matched, after) == s + ExpandReplacement(t, before, matched, after)
  {
    if s != [] {
      ExpandAfterDoubling(s[1..], t, before, matched, after);
      var rest := DoubleDollars(s[1..]) + t;
      assert s == [s[0]] + s[1..];
      if s[0] == '$' {
        assert DoubleDollars(s) + t == "$$" + rest;
        assert ("$$" + rest)[2..] == rest;
        assert ExpandReplacement("$$" + rest, before, matched, after) == "$" + ExpandReplacement(rest, before, matched, after);
      } else {
        assert DoubleDollars(s) + t == [s[0]] + rest;
        assert ([s[0]] + rest)[1..] == rest;
        assert ExpandReplacement([s[0]] + rest, before, matched, after) == [s[0]] + ExpandReplacement(rest, before, matched, after);
      }
    } else {
      assert DoubleDollars(s) + t == t;
    }
  }

  /**
   * The label pass inserts a translation without doubling its dollars, so a
   * `$&` in a translation repeats the placeholder it replaces: the caption
   * `a$&b` turns the placeholder m into `"a` m `b"`.
   */
  lemma LabelDollarsExpanded(m: string)
    requires m != []
    ensures JsReplace(m, m, "\"a$&b\"") == "\"a" + m + "b\""
  {
    assert OccursAt(m, m, 0) by {
      assert m[0..|m|] == m;
    }
    assert IndexOf(m, m) == Some(0);
    var r := "\"a$&b\"";
    assert r[1..] == "a$&b\"" && r[2..] == "$&b\"" && r[4..] == "b\"" && r[5..] == "\"";
    assert ExpandReplacement("\"", [], m, []) == "\"" by {
      assert "\""[1..] == [];
    }
    assert ExpandReplacement("b\"", [], m, []) == "b\"";
    assert ExpandReplacement("$&b\"", [], m, []) == m + "b\"";
    assert ExpandReplacement("a$&b\"", [], m, []) == "a" + m + "b\"";
    assert ExpandReplacement(r, [], m, []) == "\"a" + m + "b\"";
    assert m[..0] == [] && m[|m|..] == [];
  }

  // ------------------------------------------------------- the label pass

  /** A label placeholder, read from its match: the camel-case field name and the three suffix flags. */
  datatype LabelToken = LabelToken(name: string, upper: bool, colon: bool, optional: bool)

  /**
   * What the label pass reads from a match of `"$<name>Label(UC)?(:)?(?)?"`:
   * the text between `"$` and the first `Label`; the flags are set when the
   * match contains `UC`, `:` or `?` anywhere.
   */
  function ParseLabel(m: string): LabelToken
  {
    LabelToken(Substring(m, 2, JsIndexOf(m, "Label")), Contains(m, "UC"), Contains(m, ":"), Contains(m, "?"))
  }

  /** The name read from a placeholder is the one written in it, unless the name itself contains `Label`. */
  lemma ParseLabelName(name: string, suffix: string)
    requires !Contains(name, "Label")
    ensures ParseLabel("\"$" + name + "Label" + suffix).name == name
  {
    var m := "\"$" + name + "Label" + suffix;
    NameEndsAtPattern(name, "Label", suffix);
    assert m[2..2 + |name|] == name;
  }

  /** The invoice field a label depends on: `getDescendantProp(invoice, toSnakeCase(name))`. */
  function LabelField(t: LabelToken): string
  {
    ToSnakeCase(t.name)
  }

  /** The dictionary key of a shown label: `partial_due` for a partial payment's balance, quote wording on a quote. */
  function LabelKey(invoice: JsValue, field: string): string
  {
    if Truthy(Member(invoice, "partial")) && field == "balance_due" then "partial_due"
    else if Truthy(Member(invoice, "is_quote")) then ReplaceFirst(field, "invoice", "quote")
    else field
  }

  /** The `UC` and `:` suffixes applied to a label. */
  function Decorate(text: string, t: LabelToken): string
  {
    (if t.upper then UpperCase(text) else text) + (if t.colon then ":" else "")
  }

  /** The label is shown unless it is optional and its field is falsy. */
  predicate LabelShown(invoice: JsValue, t: LabelToken)
  {
    !t.optional || Truthy(Descend(invoice, Split(LabelField(t), '.')))
  }

  /**
   * The text a label placeholder resolves to.  A missing label is `undefined`:
   * uppercasing it stops the script with an error, otherwise it prints as
   * the word "undefined".
   */
  function ResolveLabel(invoice: JsValue, labels: map<string, string>, t: LabelToken): Result<string, string>
  {
    if !LabelShown(invoice, t) then Success(" ")
    else
      var key := LabelKey(invoice, LabelField(t));
      if key in labels then Success(Decorate(labels[key], t))
      else if t.upper then Failure("cannot uppercase an undefined label: " + key)
      else Success("undefined" + (if t.colon then ":" else ""))
  }

  /** `UC` uppercases every letter of the label and `:` appends one colon; nothing else changes. */
  lemma DecorateSpec(text: string, t: LabelToken)
    ensures |Decorate(text, t)| == |text| + (if t.colon then 1 else 0)
    ensures forall i :: 0 <= i < |text| ==>
      Decorate(text, t)[i] == (if t.upper then ToUpper(text[i]) else text[i])
    ensures t.colon ==> Decorate(text, t)[|text|] == ':'
  {
  }

  /** An optional label whose field is falsy is a single space, whatever the dictionary holds. */
  lemma OptionalFalsyIsSpace(invoice: JsValue, labels: map<string, string>, t: LabelToken)
    requires '.' !in t.name
    requires t.optional && !Truthy(Member(invoice, LabelField(t)))
    ensures ResolveLabel(invoice, labels, t) == Success(" ")
  {
    LabelFieldOneStep(t);
  }

  /** The field of a label placeholder is a single step: `\w` names hold no dot. */
  lemma LabelFieldOneStep(t: LabelToken)
    requires '.' !in t.name
    ensures Split(LabelField(t), '.') == [LabelField(t)]
  {
    ToSnakeCaseKeepsOut(t.name, '.');
    SplitWithoutSeparator(LabelField(t), '.');
  }

  lemma {:induction false} ToSnakeCaseKeepsOut(s: string, c: char)
    requires c !in s && c != '_' && !IsLower(c)
    ensures c !in ToSnakeCase(s)
  {
    if s != [] {
      ToSnakeCaseKeepsOut(s[1..], c);
    }
  }

  /**
   * Which dictionary entry a shown label reads: the balance of an invoice with
   * a partial payment reads `partial_due`; otherwise a quote reads the field
   * name with its first `invoice` turned into `quote`; otherwise the field
   * name itself.  The entry is then decorated by the suffixes.
   */
  lemma ShownLabelKey(invoice: JsValue, labels: map<string, string>, t: LabelToken)
    requires LabelShown(invoice, t)
    ensures var field := LabelField(t);
      var key := LabelKey(invoice, field);
      (Truthy(Member(invoice, "partial")) && field == "balance_due" ==> key == "partial_due") &&
      (!(Truthy(Member(invoice, "partial")) && field == "balance_due") && Truthy(Member(invoice, "is_quote")) ==>
        key == ReplaceFirst(field, "invoice", "quote")) &&
      (!(Truthy(Member(invoice, "partial")) && field == "balance_due") && !Truthy(Member(invoice, "is_quote")) ==>
        key == field) &&
      (key in labels ==> ResolveLabel(invoice, labels, t) == Success(Decorate(labels[key], t)))
  {
  }

  /** On a quote `invoice_number` reads the `quote_number` label. */
  lemma QuoteNumberLabel(invoice: JsValue)
    requires Truthy(Member(invoice, "is_quote"))
    ensures LabelKey(invoice, "invoice_number") == "quote_number"
  {
    var f := "invoice_number";
    assert OccursAt(f, "invoice", 0);
    assert f[7..] == "_number";
  }

  /** A label resolution fails exactly when an uppercased, shown label is missing from the dictionary. */
  lemma ResolveLabelFails(invoice: JsValue, labels: map<string, string>, t: LabelToken)
    ensures ResolveLabel(invoice, labels, t).Failure? <==>
      LabelShown(invoice, t) && t.upper && LabelKey(invoice, LabelField(t)) !in labels
  {
  }

  /** The label pass over the matches in order; the first failing resolution stops it. */
  function LabelPassSpec(invoice: JsValue, labels: map<string, string>, text: string, matches: seq<string>): Result<string, string>
    decreases |matches|
  {
    if matches == [] then Success(text)
    else
      match ResolveLabel(invoice, labels, ParseLabel(matches[0]))
      case Failure(e) => Failure(e)
      case Success(caption) =>
        LabelPassSpec(invoice, labels, JsReplace(text, matches[0], "\"" + caption + "\""), matches[1..])
  }

  /** The label loop of `decodeJavascript`: each match is replaced by its quoted label. */
  method LabelPass(invoice: JsValue, labels: map<string, string>, text: string, matches: seq<string>)
    returns (r: Result<string, string>)
    ensures r == LabelPassSpec(invoice, labels, text, matches)
  {
    var javascript := text;
    var i := 0;
    while i < |matches|
      invariant 0 <= i <= |matches|
      invariant LabelPassSpec(invoice, labels, text, matches) ==
        LabelPassSpec(invoice, labels, javascript, matches[i..])
    {
      var match_ := matches[i];
      var resolved := ResolveLabel(invoice, labels, ParseLabel(match_));
      LabelPassStep(invoice, labels, javascript, matches, i);
      if resolved.Failure? {
        return Failure(resolved.error);
      }
      javascript := JsReplace(javascript, match_, "\"" + resolved.value + "\"");
      i := i + 1;
    }
    return Success(javascript);
  }

  /** One step of the label pass: the first remaining match stops it or is replaced. */
  lemma LabelPassStep(invoice: JsValue, labels: map<string, string>, text: string, matches: seq<string>, i: nat)
    requires i < |matches|
    ensures var resolved := ResolveLabel(invoice, labels, ParseLabel(matches[i]));
      LabelPassSpec(invoice, labels, text, matches[i..]) ==
      if resolved.Failure? then Failure(resolved.error)
      else LabelPassSpec(invoice, labels, JsReplace(text, matches[i], "\"" + resolved.value + "\""), matches[i + 1..])
  {
    assert matches[i..][0] == matches[i];
    assert matches[i..][1..] == matches[i + 1..];
  }

  /** A match whose label cannot be resolved. */
  predicate Unresolvable(invoice: JsValue, labels: map<string, string>, m: string)
  {
    ResolveLabel(invoice, labels, ParseLabel(m)).Failure?
  }

  /** The label pass stops with an error exactly when one of its matches cannot be resolved. */
  lemma LabelPassFails(invoice: JsValue, labels: map<string, string>, text: string, matches: seq<string>)
    ensures LabelPassSpec(invoice, labels, text, matches).Failure? <==>
      exists i :: 0 <= i < |matches| && Unresolvable(invoice, labels, matches[i])
  {
    LabelPassFailsAny(invoice, labels, text, matches);
    AnyUnresolvableExists(invoice, labels, matches);
  }

  /** Some match, from the first on, cannot be resolved. */
  predicate AnyUnresolvable(invoice: JsValue, labels: map<string, string>, matches: seq<string>)
    decreases |matches|
  {
    matches != [] && (Unresolvable(invoice, labels, matches[0]) || AnyUnresolvable(invoice, labels, matches[1..]))
  }

  lemma {:induction false} LabelPassFailsAny(invoice: JsValue, labels: map<string, string>, text: string, matches: seq<string>)
    ensures LabelPassSpec(invoice, labels, text, matches).Failure? <==> AnyUnresolvable(invoice, labels, matches)
    decreases |matches|
  {
    if matches != [] {
      var first := ResolveLabel(invoice, labels, ParseLabel(matches[0]));
      if first.Success? {
        LabelPassFailsAny(invoice, labels, JsReplace(text, matches[0], "\"" + first.value + "\""), matches[1..]);
      }
    }
  }

  lemma {:induction false} AnyUnresolvableExists(invoice: JsValue, labels: map<string, string>, matches: seq<string>)
    ensures AnyUnresolvable(invoice, labels, matches) <==>
      exists i :: 0 <= i < |matches| && Unresolvable(invoice, labels, matches[i])
    decreases |matches|
  {
    if matches != [] {
      AnyUnresolvableExists(invoice, labels, matches[1..]);
      ExistsFirstOrRest(m => Unresolvable(invoice, labels, m), matches);
    }
  }

  /** Some element satisfies p exactly when the first does or some later one does. */
  lemma ExistsFirstOrRest<T>(p: T -> bool, s: seq<T>)
    requires s != []
    ensures (exists i :: 0 <= i < |s| && p(s[i])) <==> p(s[0]) || exists j :: 0 <= j < |s[1..]| && p(s[1..][j])
  {
    var rest := s[1..];
    if exists i :: 0 <= i < |s| && p(s[i]) {
      var i :| 0 <= i < |s| && p(s[i]);
      if i > 0 {
        assert rest[i - 1] == s[i];
      }
    }
    if exists j :: 0 <= j < |rest| && p(rest[j]) {
      var j :| 0 <= j < |rest| && p(rest[j]);
      assert s[j + 1] == rest[j];
    }
  }

  // ------------------------------------------------------- the value pass

  /** The placeholders that name layout settings rather than invoice fields. */
  const ReservedWords: seq<string> := [
    "\"$none\"", "\"$firstAndLast\"", "\"$notFirstAndLastColumn\"", "\"$notFirst\"",
    "\"$amount\"", "\"$primaryColor\"", "\"$secondaryColor\""]

  /** The field a value placeholder names: legacy placeholders end in `Value`, the rest run to the closing quote. */
  function ValueField(m: string): string
  {
    if EndsWith(m, "Value\"") then Substring(m, 2, JsIndexOf(m, "Value"))
    else Substring(m, 2, |m| - 1)
  }

  /** What `'"' + value + '"'` holds for a value placeholder: a falsy field prints as a space. */
  function ValueText(invoice: JsValue, m: string): string
  {
    var value := Descend(invoice, Split(ToSnakeCase(ValueField(m)), '.'));
    Stringify(DoubleDollarSign(if Truthy(value) then value else Str(" ")))
  }

  /** The value pass over the matches in order; reserved words are left alone. */
  function ValuePassSpec(invoice: JsValue, text: string, matches: seq<string>): string
    decreases |matches|
  {
    if matches == [] then text
    else if matches[0] in ReservedWords then ValuePassSpec(invoice, text, matches[1..])
    else ValuePassSpec(invoice, JsReplace(text, matches[0], "\"" + ValueText(invoice, matches[0]) + "\""), matches[1..])
  }

  /** The value loop of `decodeJavascript`. */
  method ValuePass(invoice: JsValue, text: string, matches: seq<string>) returns (javascript: string)
    ensures javascript == ValuePassSpec(invoice, text, matches)
  {
    javascript := text;
    for i := 0 to |matches|
      invariant ValuePassSpec(invoice, text, matches) == ValuePassSpec(invoice, javascript, matches[i..])
    {
      var match_ := matches[i];
      assert matches[i..][1..] == matches[i + 1..];
      if match_ in ReservedWords {
        continue;
      }
      javascript := JsReplace(javascript, match_, "\"" + ValueText(invoice, match_) + "\"");
    }
    assert matches[|matches|..] == [];
  }

  /** A legacy placeholder `"$<name>Value"` names the field written before `Value`. */
  lemma LegacyValueField(name: string)
    requires !Contains(name, "Value")
    ensures ValueField("\"$" + name + "Value\"") == name
  {
    var m := "\"$" + name + "Value\"";
    NameEndsAtPattern(name, "Value", "\"");
    assert m == "\"$" + name + "Value" + "\"";
    assert m[|m| - 6..] == "Value\"";
    assert EndsWith(m, "Value\"");
    assert JsIndexOf(m, "Value") == 2 + |name|;
    assert m[2..2 + |name|] == name;
  }

  /** A current-style placeholder `"$<path>"` names the whole path between the dollar and the closing quote. */
  lemma PathValueField(path: string)
    requires !EndsWith("\"$" + path + "\"", "Value\"")
    ensures ValueField("\"$" + path + "\"") == path
  {
    var m := "\"$" + path + "\"";
    assert m[2..|m| - 1] == path;
  }

  /**
   * A text field is inserted exactly as it is: the doubled dollars undo the
   * replacement-string expansion of `replace`, so no `$` is lost.
   */
  lemma TextValueInsertedVerbatim(invoice: JsValue, m: string, before: string, after: string)
    requires Descend(invoice, Split(ToSnakeCase(ValueField(m)), '.')).Str?
    ensures var s := Descend(invoice, Split(ToSnakeCase(ValueField(m)), '.')).s;
      ExpandReplacement("\"" + ValueText(invoice, m) + "\"", before, m, after) == "\"" + (if s == "" then " " else s) + "\""
  {
    var value := Descend(invoice, Split(ToSnakeCase(ValueField(m)), '.'));
    var shown := if value.s == "" then " " else value.s;
    assert ValueText(invoice, m) == DoubleDollars(shown);
    ExpandAfterDoubling(shown, "\"", before, m, after);
    assert ("\"" + DoubleDollars(shown) + "\"")[1..] == DoubleDollars(shown) + "\"";
  }

  /** A falsy field prints as a single space. */
  lemma FalsyValueIsSpace(invoice: JsValue, m: string)
    requires !Truthy(Descend(invoice, Split(ToSnakeCase(ValueField(m)), '.')))
    ensures ValueText(invoice, m) == " "
  {
  }

  /** A pass over reserved words only leaves the template unchanged. */
  lemma {:induction false} ReservedWordsUntouched(invoice: JsValue, text: string, matches: seq<string>)
    requires forall i :: 0 <= i < |matches| ==> matches[i] in ReservedWords
    ensures ValuePassSpec(invoice, text, matches) == text
  {
    if matches != [] {
      ReservedWordsUntouched(invoice, text, matches[1..]);
    }
  }
}
