/**
 * String helpers of the invoice engine: number rendering used in tax keys and
 * labels, the snake/camel case converters of the placeholder resolver,
 * `formatAddress` and `concatStrings`.  Strings are sequences of `char`;
 * upper and lower case are the ASCII letters, which are the only ones the
 * source's regular expressions (`[A-Z]`, `[a-z]`) touch.
 */
module Text {
  import opened Wrappers

  predicate IsUpper(c: char) { 'A' <= c <= 'Z' }
  predicate IsLower(c: char) { 'a' <= c <= 'z' }

  function ToLower(c: char): char
  {
    if IsUpper(c) then (c as int + 32) as char else c
  }

  function ToUpper(c: char): char
  {
    if IsLower(c) then (c as int - 32) as char else c
  }

  /** `String.prototype.toUpperCase`, restricted to ASCII letters. */
  function UpperCase(s: string): (r: string)
    ensures |r| == |s|
    ensures forall i :: 0 <= i < |s| ==> r[i] == ToUpper(s[i])
  {
    if s == [] then [] else [ToUpper(s[0])] + UpperCase(s[1..])
  }

  // ---------------------------------------------------------------- numbers

  function DigitChar(d: nat): char
    requires d < 10
  {
    "0123456789"[d]
  }

  /** The decimal digits of a natural number, most significant first. */
  function Digits(n: nat): (r: string)
    ensures |r| >= 1
    ensures forall i :: 0 <= i < |r| ==> '0' <= r[i] <= '9'
    decreases n
  {
    if n < 10 then [DigitChar(n)] else Digits(n / 10) + [DigitChar(n % 10)]
  }

  /** `Number.prototype.toString` for an integer (below 10^21 in magnitude). */
  function IntText(n: int): string
  {
    if n < 0 then "-" + Digits(-n) else Digits(n)
  }

  /**
   * `Number.prototype.toString` for a tax rate held as a whole number of
   * thousandths of a percent: the integer part, then a point and the
   * fraction digits without trailing zeros, if any.
   */
  function RateText(milli: int): string
  {
    var a := if milli < 0 then -milli else milli;
    var sign := if milli < 0 then "-" else "";
    var whole, frac := a / 1000, a % 1000;
    if frac == 0 then sign + Digits(whole)
    else if frac % 100 == 0 then sign + Digits(whole) + "." + [DigitChar(frac / 100)]
    else if frac % 10 == 0 then sign + Digits(whole) + "." + [DigitChar(frac / 100), DigitChar(frac / 10 % 10)]
    else sign + Digits(whole) + "." + [DigitChar(frac / 100), DigitChar(frac / 10 % 10), DigitChar(frac % 10)]
  }

  /** A whole rate prints as its integer. */
  lemma RateTextWhole(n: nat)
    ensures RateText(1000 * n) == Digits(n)
  {
    var a := 1000 * n;
    assert a / 1000 == n && a % 1000 == 0 by {
      assert a == 1000 * n + 0;
    }
  }

  /** A fractional rate prints its significant decimals only: 7.5% and 19.25%. */
  lemma RateTextFractions()
    ensures RateText(7500) == "7.5" && RateText(19250) == "19.25"
  {
    assert 7500 / 1000 == 7 && 7500 % 1000 == 500 && 500 % 100 == 0 && 500 / 100 == 5;
    assert 19250 / 1000 == 19 && 19250 % 1000 == 250 && 250 % 100 != 0 && 250 % 10 == 0;
    assert 250 / 100 == 2 && 250 / 10 % 10 == 5;
    assert Digits(7) == "7" by {
      assert DigitChar(7) == '7';
    }
    assert Digits(19) == "19" by {
      assert Digits(1) == "1" by {
        assert DigitChar(1) == '1';
      }
      assert 19 / 10 == 1 && 19 % 10 == 9 && DigitChar(9) == '9';
    }
    assert DigitChar(5) == '5' && DigitChar(2) == '2';
  }

  /** The value of a string of decimal digits. */
  function DigitsValue(s: string): int
  {
    if s == [] then 0 else DigitsValue(s[..|s| - 1]) * 10 + (s[|s| - 1] as int - '0' as int)
  }

  /** Reading the digits back gives the number: `Digits` loses nothing. */
  lemma {:induction false} DigitsRoundTrip(n: nat)
    ensures DigitsValue(Digits(n)) == n
    decreases n
  {
    if n >= 10 {
      var s := Digits(n / 10) + [DigitChar(n % 10)];
      assert s[..|s| - 1] == Digits(n / 10);
      DigitsRoundTrip(n / 10);
    }
  }

  /** The value of an integer's text: an optional minus sign, then digits. */
  function IntValue(s: string): int
  {
    if |s| > 0 && s[0] == '-' then -DigitsValue(s[1..]) else DigitsValue(s)
  }

  /** Reading an integer's text back gives the integer, so different integers read differently. */
  lemma IntTextRoundTrip(n: int)
    ensures IntValue(IntText(n)) == n
  {
    if n < 0 {
      var d := Digits(-n);
      assert ("-" + d)[1..] == d;
      DigitsRoundTrip(-n);
    } else {
      DigitsRoundTrip(n);
    }
  }

  // ---------------------------------------------------------- case helpers

  /** `toSnakeCase`: every upper-case letter X becomes `_x`. */
  function ToSnakeCase(s: string): (r: string)
    ensures forall i :: 0 <= i < |r| ==> !IsUpper(r[i])
    ensures |r| >= |s|
  {
    if s == [] then []
    else (if IsUpper(s[0]) then ['_', ToLower(s[0])] else [s[0]]) + ToSnakeCase(s[1..])
  }

  /** `snakeToCamel`: every `_x` with x a lower-case letter becomes X, scanning left to right. */
  function SnakeToCamel(s: string): (r: string)
    ensures |r| <= |s|
  {
    if |s| >= 2 && s[0] == '_' && IsLower(s[1]) then [ToUpper(s[1])] + SnakeToCamel(s[2..])
    else if s == [] then []
    else [s[0]] + SnakeToCamel(s[1..])
  }

  /** A camel-case name without underscores survives the trip to snake case and back. */
  lemma {:induction false} SnakeCamelRoundTrip(s: string)
    requires forall i :: 0 <= i < |s| ==> s[i] != '_'
    ensures SnakeToCamel(ToSnakeCase(s)) == s
  {
    if s != [] {
      var rest := ToSnakeCase(s[1..]);
      SnakeCamelRoundTrip(s[1..]);
      if IsUpper(s[0]) {
        var t := ['_', ToLower(s[0])] + rest;
        assert t[2..] == rest;
      } else {
        var t := [s[0]] + rest;
        assert t[1..] == rest;
      }
    }
  }

  /** A snake-case name without upper-case letters survives the trip to camel case and back. */
  lemma {:induction false} CamelSnakeRoundTrip(s: string)
    requires forall i :: 0 <= i < |s| ==> !IsUpper(s[i])
    ensures ToSnakeCase(SnakeToCamel(s)) == s
  {
    if |s| >= 2 && s[0] == '_' && IsLower(s[1]) {
      CamelSnakeRoundTrip(s[2..]);
      var t := [ToUpper(s[1])] + SnakeToCamel(s[2..]);
      assert t[1..] == SnakeToCamel(s[2..]);
      assert s == ['_', s[1]] + s[2..];
    } else if s != [] {
      CamelSnakeRoundTrip(s[1..]);
      var t := [s[0]] + SnakeToCamel(s[1..]);
      assert t[1..] == SnakeToCamel(s[1..]);
    }
  }

  // ---------------------------------------------------------- searching

  /** `pat` occurs in `s` at position i. */
  predicate OccursAt(s: string, pat: string, i: nat)
  {
    i + |pat| <= |s| && s[i..i + |pat|] == pat
  }

  /** `s.indexOf(pat, from)`: the first position at or after `from` where `pat` occurs. */
  function IndexFrom(s: string, pat: string, from: nat): (r: Option<nat>)
    ensures r.Some? ==> from <= r.value && OccursAt(s, pat, r.value)
    ensures r.Some? ==> forall j :: from <= j < r.value ==> !OccursAt(s, pat, j)
    ensures r.None? ==> forall j :: from <= j ==> !OccursAt(s, pat, j)
    decreases |s| - from
  {
    if from + |pat| > |s| then None
    else if s[from..from + |pat|] == pat then Some(from)
    else IndexFrom(s, pat, from + 1)
  }

  function IndexOf(s: string, pat: string): Option<nat>
  {
    IndexFrom(s, pat, 0)
  }

  predicate Contains(s: string, pat: string)
  {
    IndexOf(s, pat).Some?
  }

  /** `s.replace(pat, rep)` with a string pattern: only the first occurrence is replaced. */
  function ReplaceFirst(s: string, pat: string, rep: string): (r: string)
    ensures IndexOf(s, pat).None? ==> r == s
    ensures IndexOf(s, pat).Some? ==>
      var i := IndexOf(s, pat).value;
      r == s[..i] + rep + s[i + |pat|..]
  {
    match IndexOf(s, pat)
    case None => s
    case Some(i) => s[..i] + rep + s[i + |pat|..]
  }

  /** `str.replace(/\$/g, '$$$$')` as `doubleDollarSign` does it: every `$` becomes `$$`. */
  function DoubleDollars(s: string): (r: string)
    ensures |r| >= |s|
  {
    if s == [] then [] else (if s[0] == '$' then "$$" else [s[0]]) + DoubleDollars(s[1..])
  }

  /**
   * How `String.prototype.replace` with a string pattern reads its
   * replacement string: `$$` stands for one `$`, `$&` for the matched text,
   * `` $` `` for the text before the match and `$'` for the text after it.
   * Any other `$` is kept as it is, since a string pattern has no groups.
   */
  function ExpandReplacement(s: string, before: string, matched: string, after: string): string
  {
    if |s| >= 2 && s[0] == '$' && s[1] in "$&`'" then
      (if s[1] == '$' then "$" else if s[1] == '&' then matched else if s[1] == '`' then before else after)
      + ExpandReplacement(s[2..], before, matched, after)
    else if s == [] then []
    else [s[0]] + ExpandReplacement(s[1..], before, matched, after)
  }

  /** Doubling the dollars makes the text survive `replace` unchanged, whatever the match. */
  lemma {:induction false} DoubleDollarsSurvivesReplace(s: string, before: string, matched: string, after: string)
    ensures ExpandReplacement(DoubleDollars(s), before, matched, after) == s
  {
    if s != [] {
      DoubleDollarsSurvivesReplace(s[1..], before, matched, after);
      var rest := DoubleDollars(s[1..]);
      if s[0] == '$' {
        assert ("$$" + rest)[2..] == rest;
      } else {
        assert ([s[0]] + rest)[1..] == rest;
      }
    }
  }

  /** A replacement string without a `$` is inserted as it is. */
  lemma {:induction false} ExpandWithoutDollar(s: string, before: string, matched: string, after: string)
    requires '$' !in s
    ensures ExpandReplacement(s, before, matched, after) == s
  {
    if s != [] {
      assert s[1..] == s[1..];
      ExpandWithoutDollar(s[1..], before, matched, after);
    }
  }

  /** `$&`, `` $` `` and `$'` insert the match and the text around it. */
  lemma ExpandPatterns(before: string, matched: string, after: string)
    ensures ExpandReplacement("$&", before, matched, after) == matched
    ensures ExpandReplacement("$`", before, matched, after) == before
    ensures ExpandReplacement("$'", before, matched, after) == after
    ensures ExpandReplacement("$1", before, matched, after) == "$1"
  {
    assert "$&"[2..] == [] && "$`"[2..] == [] && "$'"[2..] == [];
    assert "$1"[1..] == "1" && "1"[1..] == [];
  }

  // ---------------------------------------------------------- addresses

  /** What string concatenation makes of a record field that may be `null`: its text, or the word "null". */
  function JsText(f: Option<string>): string
  {
    if f.Some? then f.value else "null"
  }

  /** A field that may be `null` is truthy when it is present and not empty. */
  predicate Filled(f: Option<string>)
  {
    f.Some? && f.value != ""
  }

  /**
   * `formatAddress(city, state, zip, swap)`: the city/state/postal-code line;
   * when `swap` is set (countries that print the postal code first) the
   * postal code leads, otherwise it trails the state.  A blank city (or,
   * with `swap`, a blank postal code) is skipped, but the state, and without
   * `swap` the postal code, are always concatenated: a `null` one prints as
   * "null".
   */
  function FormatAddress(city: Option<string>, state: Option<string>, zip: Option<string>, swap: bool): string
  {
    if swap then
      (if Filled(zip) then zip.value + " " else "")
      + (if Filled(city) then city.value else "")
      + (if Filled(city) && Filled(state) then ", " else if Filled(city) then " " else "")
      + JsText(state)
    else
      (if Filled(city) then city.value else "")
      + (if Filled(city) && Filled(state) then ", " else if Filled(state) then " " else "")
      + JsText(state) + " " + JsText(zip)
  }

  /** With all three parts present, the two layouts order them differently. */
  lemma FormatAddressLayouts(city: Option<string>, state: Option<string>, zip: Option<string>)
    requires Filled(city) && Filled(state) && Filled(zip)
    ensures FormatAddress(city, state, zip, true) == zip.value + " " + city.value + ", " + state.value
    ensures FormatAddress(city, state, zip, false) == city.value + ", " + state.value + " " + zip.value
  {
  }

  /** With `swap` a present postal code starts the line, followed by a space. */
  lemma FormatAddressPostalFirst(city: Option<string>, state: Option<string>, zip: Option<string>)
    requires Filled(zip)
    ensures var r := FormatAddress(city, state, zip, true); |r| > |zip.value| && r[..|zip.value| + 1] == zip.value + " "
  {
    var rest := (if Filled(city) then city.value else "")
      + (if Filled(city) && Filled(state) then ", " else if Filled(city) then " " else "") + JsText(state);
    assert FormatAddress(city, state, zip, true) == (zip.value + " ") + rest;
    PrefixOfAppend(zip.value + " ", rest);
  }

  /** Without `swap` the line always ends with a space and the postal code, "null" when it is `null`. */
  lemma FormatAddressPostalLast(city: Option<string>, state: Option<string>, zip: Option<string>)
    ensures var r := FormatAddress(city, state, zip, false);
      |r| > |JsText(zip)| && r[|r| - |JsText(zip)| - 1..] == " " + JsText(zip)
  {
    var lead := (if Filled(city) then city.value else "")
      + (if Filled(city) && Filled(state) then ", " else if Filled(state) then " " else "") + JsText(state);
    assert FormatAddress(city, state, zip, false) == lead + (" " + JsText(zip));
    SuffixOfAppend(lead, " " + JsText(zip));
  }

  /** A `null` state is printed as "null", glued to the city: "Berlinnull 10115". */
  lemma FormatAddressNullState(city: Option<string>, zip: Option<string>)
    requires Filled(city)
    ensures FormatAddress(city, None, zip, false) == city.value + "null " + JsText(zip)
    ensures FormatAddress(city, None, zip, true) ==
      (if Filled(zip) then zip.value + " " else "") + city.value + " null"
  {
  }

  lemma PrefixOfAppend<T>(a: seq<T>, b: seq<T>)
    ensures (a + b)[..|a|] == a
  {
  }

  lemma SuffixOfAppend<T>(a: seq<T>, b: seq<T>)
    ensures (a + b)[|a + b| - |b|..] == b
  {
  }

  // ---------------------------------------------------------- concatStrings

  /** The truthy arguments, in order (the first loop of `concatStrings`). */
  function NonBlank(args: seq<string>): (r: seq<string>)
    ensures |r| <= |args|
    ensures forall i :: 0 <= i < |r| ==> r[i] != ""
  {
    if args == [] then []
    else NonBlank(args[..|args| - 1]) + (if args[|args| - 1] != "" then [args[|args| - 1]] else [])
  }

  /** The separator written after part i of n: ", " after the first, " " between the others. */
  function SepAfter(i: nat, n: nat): string
  {
    if i == 0 && n > 1 then ", " else if i + 1 < n then " " else ""
  }

  /** The parts joined: the first and second by ", ", every later pair by " ". */
  function Joined(d: seq<string>): string
  {
    if |d| == 0 then ""
    else if |d| == 1 then d[0]
    else Joined(d[..|d| - 1]) + (if |d| == 2 then ", " else " ") + d[|d| - 1]
  }

  /** `concatStrings(...)`: the non-blank arguments joined. */
  method ConcatStrings(args: seq<string>) returns (concatStr: string)
    ensures concatStr == Joined(NonBlank(args))
  {
    var data: seq<string> := [];
    for i := 0 to |args|
      invariant data == NonBlank(args[..i])
    {
      assert args[..i + 1][..i] == args[..i];
      if args[i] != "" {
        data := data + [args[i]];
      }
    }
    assert args[..|args|] == args;
    concatStr := "";
    var n := |data|;
    for i := 0 to n
      invariant concatStr == Joined(data[..i]) + (if i > 0 then SepAfter(i - 1, n) else "")
    {
      JoinedStep(data, i);
      concatStr := concatStr + data[i];
      concatStr := concatStr + SepAfter(i, n);
    }
    assert data[..n] == data;
  }

  /** Writing part i and the separator before it extends the join of the first i parts by one. */
  lemma JoinedStep(d: seq<string>, i: nat)
    requires i < |d|
    ensures Joined(d[..i + 1]) == Joined(d[..i]) + (if i > 0 then SepAfter(i - 1, |d|) else "") + d[i]
  {
    assert d[..i + 1][..i] == d[..i];
    assert d[..i + 1][i] == d[i];
  }

  /** `concatStrings` yields "" exactly when every argument is blank. */
  lemma {:induction false} ConcatStringsEmptyIff(args: seq<string>)
    ensures Joined(NonBlank(args)) == "" <==> forall i :: 0 <= i < |args| ==> args[i] == ""
  {
    var d := NonBlank(args);
    NonBlankEmptyIff(args);
    if |d| >= 1 {
      JoinedEndsWithLast(d);
    }
  }

  lemma {:induction false} NonBlankEmptyIff(args: seq<string>)
    ensures NonBlank(args) == [] <==> forall i :: 0 <= i < |args| ==> args[i] == ""
  {
    if args != [] {
      NonBlankEmptyIff(args[..|args| - 1]);
      assert forall i :: 0 <= i < |args| - 1 ==> args[..|args| - 1][i] == args[i];
    }
  }

  lemma JoinedEndsWithLast(d: seq<string>)
    requires |d| >= 1
    ensures |Joined(d)| >= |d[|d| - 1]|
    ensures Joined(d)[|Joined(d)| - |d[|d| - 1]|..] == d[|d| - 1]
  {
  }

  /** A single non-blank argument comes back as it is; two are joined by ", ". */
  lemma ConcatStringsFew(a: string, b: string)
    requires a != "" && b != ""
    ensures Joined(NonBlank(["", a, ""])) == a
    ensures Joined(NonBlank([a, "", b])) == a + ", " + b
  {
    assert ["", a, ""][..2] == ["", a] && ["", a][..1] == [""] && [""][..0] == [];
    assert NonBlank([""]) == [];
    assert NonBlank(["", a]) == [a];
    assert NonBlank(["", a, ""]) == [a];
    assert [a, "", b][..2] == [a, ""] && [a, ""][..1] == [a] && [a][..0] == [];
    assert NonBlank([a]) == [a];
    assert NonBlank([a, ""]) == [a];
    assert NonBlank([a, "", b]) == [a, b];
    assert [a, b][..1] == [a];
  }
}
