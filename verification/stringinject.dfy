/** Symbol templates (TCC/StringInjectExtension.cs): `{key}` and
    `{key:spec}` placeholders in a string are replaced by the text of the
    value stored under `key`, the second kind transformed by the format
    specifier `spec`. */
module StringInject {
  import opened Prelude

  /** A computation that may raise IndexOutOfRangeException, which reading
      `symbol[0]` of an empty string does. */
  datatype Result<T> = Ok(value: T) | IndexOutOfRange

  // ---------------------------------------------------------------------
  // The 's' transform: Regex.Split(symbol, "(?<!^)(?=[A-Z])") joined by '_'

  /** An underscore before every upper-case letter that is not the first
      character. */
  function SplitAtCapitals(s: string): string
  {
    if |s| <= 1 then s
    else
      var last := s[|s| - 1];
      SplitAtCapitals(s[..|s| - 1]) + (if IsUpper(last) then "_" else "") + [last]
  }

  /** The inverse: drop the underscore in front of each upper-case letter
      that does not start the string. */
  function JoinAtCapitals(r: string): string
  {
    if |r| <= 1 then r
    else
      var last := r[|r| - 1];
      if IsUpper(last) && |r| >= 3 && r[|r| - 2] == '_' then JoinAtCapitals(r[..|r| - 2]) + [last]
      else JoinAtCapitals(r[..|r| - 1]) + [last]
  }

  /** Splitting keeps the first character and the length grows by one per
      upper-case letter after it. */
  lemma {:induction false} SplitAtCapitalsShape(s: string)
    ensures |SplitAtCapitals(s)| >= |s|
    ensures |s| > 0 ==> SplitAtCapitals(s)[0] == s[0]
    ensures |s| > 0 ==> SplitAtCapitals(s)[|SplitAtCapitals(s)| - 1] == s[|s| - 1]
  {
    if |s| > 1 {
      SplitAtCapitalsShape(s[..|s| - 1]);
    }
  }

  /** Splitting loses nothing: joining gives back the original string. */
  lemma {:induction false} SplitThenJoin(s: string)
    ensures JoinAtCapitals(SplitAtCapitals(s)) == s
  {
    if |s| > 1 {
      var init := s[..|s| - 1];
      var last := s[|s| - 1];
      calc {
        JoinAtCapitals(SplitAtCapitals(s));
        JoinAtCapitals(SplitAtCapitals(init) + (if IsUpper(last) then "_" else "") + [last]);
        { SplitAtCapitalsShape(init); JoinSnoc(SplitAtCapitals(init), last); }
        JoinAtCapitals(SplitAtCapitals(init)) + [last];
        { SplitThenJoin(init); }
        init + [last];
        { SnocWhole(s); }
        s;
      }
    }
  }

  /** A non-empty sequence is its front and its last element. */
  lemma SnocWhole<T>(s: seq<T>)
    requires s != []
    ensures s[..|s| - 1] + [s[|s| - 1]] == s
  {
  }

  /** Joining undoes one step of splitting. */
  lemma JoinSnoc(front: string, last: char)
    requires |front| >= 1
    ensures JoinAtCapitals(front + (if IsUpper(last) then "_" else "") + [last]) == JoinAtCapitals(front) + [last]
  {
    if IsUpper(last) {
      assert front + "_" + [last] == front + ['_', last];
      JoinDropsMark(front, last);
    } else {
      assert front + "" + [last] == front + [last];
      JoinKeeps(front, last);
    }
  }

  lemma JoinDropsMark(front: string, last: char)
    requires |front| >= 1 && IsUpper(last)
    ensures JoinAtCapitals(front + ['_', last]) == JoinAtCapitals(front) + [last]
  {
    var r := front + ['_', last];
    assert r[..|r| - 2] == front;
  }

  lemma JoinKeeps(front: string, last: char)
    requires |front| >= 1 && !IsUpper(last)
    ensures JoinAtCapitals(front + [last]) == JoinAtCapitals(front) + [last]
  {
    var r := front + [last];
    assert r[|r| - 1] == last;
    assert r[..|r| - 1] == front;
  }

  /** Every upper-case letter after the first character is preceded by an
      underscore. */
  lemma {:induction false} SplitMarksCapitals(s: string)
    ensures var r := SplitAtCapitals(s);
      forall j :: 0 < j < |r| && IsUpper(r[j]) ==> r[j - 1] == '_'
  {
    if |s| > 1 {
      var init := s[..|s| - 1];
      var last := s[|s| - 1];
      SplitMarksCapitals(init);
      SplitAtCapitalsShape(init);
      var front := SplitAtCapitals(init);
      var r := SplitAtCapitals(s);
      var mid := if IsUpper(last) then "_" else "";
      assert r == front + mid + [last];
      forall j | 0 < j < |r| && IsUpper(r[j])
        ensures r[j - 1] == '_'
      {
        if j < |front| {
          assert r[j] == front[j] && r[j - 1] == front[j - 1];
        }
      }
    }
  }

  // ---------------------------------------------------------------------
  // FormatSymbol

  /** One specifier character applied to the symbol; an unknown character
      leaves it as it is. */
  function ApplySpecifier(c: char, symbol: string): Result<string>
  {
    match c
    case 'U' => Ok(ToUpper(symbol))
    case 'L' => Ok(ToLower(symbol))
    case 'l' => if symbol == [] then IndexOutOfRange else Ok([ToLowerChar(symbol[0])] + symbol[1..])
    case 'u' => if symbol == [] then IndexOutOfRange else Ok([ToUpperChar(symbol[0])] + symbol[1..])
    case 's' => Ok(SplitAtCapitals(symbol))
    case _ => Ok(symbol)
  }

  /** The specifier characters applied from left to right, stopping at the
      first that faults. */
  function Format(symbol: string, specifier: string): Result<string>
  {
    if specifier == [] then Ok(symbol)
    else
      match Format(symbol, specifier[..|specifier| - 1])
      case IndexOutOfRange => IndexOutOfRange
      case Ok(s) => ApplySpecifier(specifier[|specifier| - 1], s)
  }

  /** StringInjectExtension.FormatSymbol. */
  method FormatSymbol(symbol: string, specifier: string) returns (r: Result<string>)
    ensures r == Format(symbol, specifier)
  {
    var current := symbol;
    for i := 0 to |specifier|
      invariant Format(symbol, specifier[..i]) == Ok(current)
    {
      assert specifier[..i + 1][..i] == specifier[..i];
      match specifier[i]
      case 'U' =>
        current := ToUpper(current);
      case 'L' =>
        current := ToLower(current);
      case 'l' =>
        if current == [] {
          FormatFaultSticks(symbol, specifier, i + 1);
          return IndexOutOfRange;
        }
        current := [ToLowerChar(current[0])] + current[1..];
      case 'u' =>
        if current == [] {
          FormatFaultSticks(symbol, specifier, i + 1);
          return IndexOutOfRange;
        }
        current := [ToUpperChar(current[0])] + current[1..];
      case 's' =>
        current := SplitAtCapitals(current);
      case _ =>
    }
    assert specifier[..|specifier|] == specifier;
    return Ok(current);
  }

  /** Once a specifier character has faulted, the rest change nothing. */
  lemma {:induction false} FormatFaultSticks(symbol: string, specifier: string, n: nat)
    requires n <= |specifier|
    requires Format(symbol, specifier[..n]) == IndexOutOfRange
    ensures Format(symbol, specifier) == IndexOutOfRange
    decreases |specifier| - n
  {
    if n == |specifier| {
      assert specifier[..n] == specifier;
    } else {
      assert specifier[..n + 1][..n] == specifier[..n];
      FormatFaultSticks(symbol, specifier, n + 1);
    }
  }

  /** Specifiers compose from left to right: formatting with `a + b` is
      formatting with `a`, then with `b`. */
  lemma {:induction false} FormatAppend(symbol: string, a: string, b: string)
    ensures Format(symbol, a + b)
      == match Format(symbol, a) case IndexOutOfRange => IndexOutOfRange case Ok(s) => Format(s, b)
    decreases |b|
  {
    if b == [] {
      assert a + b == a;
    } else {
      var init := b[..|b| - 1];
      assert (a + b)[..|a + b| - 1] == a + init;
      assert (a + b)[|a + b| - 1] == b[|b| - 1];
      FormatAppend(symbol, a, init);
    }
  }

  predicate IsSpecifier(c: char)
  {
    c == 'U' || c == 'L' || c == 'l' || c == 'u' || c == 's'
  }

  /** Unknown characters are ignored: a specifier made only of them leaves
      the symbol as it is. */
  lemma {:induction false} FormatIgnoresUnknown(symbol: string, specifier: string)
    requires forall i :: 0 <= i < |specifier| ==> !IsSpecifier(specifier[i])
    ensures Format(symbol, specifier) == Ok(symbol)
  {
    if specifier != [] {
      FormatIgnoresUnknown(symbol, specifier[..|specifier| - 1]);
    }
  }

  /** 'U' and 'L' are idempotent. */
  lemma CaseIdempotent(symbol: string)
    ensures Format(symbol, "UU") == Format(symbol, "U") == Ok(ToUpper(symbol))
    ensures Format(symbol, "LL") == Format(symbol, "L") == Ok(ToLower(symbol))
  {
    ToUpperIdempotent(symbol);
    ToLowerIdempotent(symbol);
    assert "UU"[..1] == "U" && "LL"[..1] == "L";
    assert "U"[..0] == "" && "L"[..0] == "";
  }

  /** 'u' and 'l' change the first character only, and fault on the empty
      string. */
  lemma FirstCharOnly(symbol: string, c: char)
    requires c == 'u' || c == 'l'
    ensures symbol == [] <==> ApplySpecifier(c, symbol) == IndexOutOfRange
    ensures symbol != [] ==>
      var r := ApplySpecifier(c, symbol).value;
      |r| == |symbol| && r[1..] == symbol[1..]
      && r[0] == (if c == 'u' then ToUpperChar(symbol[0]) else ToLowerChar(symbol[0]))
  {
  }

  /** Every transform keeps an empty symbol empty and a non-empty one
      non-empty. */
  lemma ApplyKeepsEmptiness(c: char, symbol: string)
    ensures ApplySpecifier(c, symbol).Ok? ==> (ApplySpecifier(c, symbol).value == [] <==> symbol == [])
  {
    if c == 's' {
      SplitAtCapitalsShape(symbol);
    }
  }

  /** FormatSymbol faults exactly when the symbol is empty and the
      specifier contains 'u' or 'l'. */
  lemma {:induction false} FormatFaultIff(symbol: string, specifier: string)
    ensures Format(symbol, specifier) == IndexOutOfRange
        <==> symbol == [] && exists i :: 0 <= i < |specifier| && (specifier[i] == 'u' || specifier[i] == 'l')
    ensures Format(symbol, specifier).Ok? ==> (Format(symbol, specifier).value == [] <==> symbol == [])
  {
    if specifier != [] {
      var init := specifier[..|specifier| - 1];
      var last := specifier[|specifier| - 1];
      FormatFaultIff(symbol, init);
      assert forall i :: 0 <= i < |init| ==> init[i] == specifier[i];
      match Format(symbol, init)
      case IndexOutOfRange =>
      case Ok(s) => ApplyKeepsEmptiness(last, s);
    }
  }

  // ---------------------------------------------------------------------
  // Placeholders: the matches of the pattern "{(key)(?:}|(?::(.[^}]*)}))"

  /** One match: its whole text and its group 2, the format, which is empty
      for a plain `{key}`. */
  datatype Placeholder = Placeholder(text: string, format: string)

  predicate OccursAt(s: string, i: nat, p: string)
  {
    i + |p| <= |s| && s[i..i + |p|] == p
  }

  /** The first '}' at or after position k. */
  function CloseBrace(s: string, k: nat): (r: Option<nat>)
    ensures r.Some? ==> k <= r.value < |s| && s[r.value] == '}'
    decreases |s| - k
  {
    if k >= |s| then None else if s[k] == '}' then Some(k) else CloseBrace(s, k + 1)
  }

  /** It is the first: no '}' lies between k and it. */
  lemma {:induction false} CloseBraceFirst(s: string, k: nat)
    requires CloseBrace(s, k).Some?
    ensures forall j :: k <= j < CloseBrace(s, k).value ==> s[j] != '}'
    decreases |s| - k
  {
    if s[k] != '}' {
      CloseBraceFirst(s, k + 1);
    }
  }

  /** A '}' with none before it from k on is the one found. */
  lemma {:induction false} CloseBraceAt(s: string, k: nat, e: nat)
    requires k <= e < |s| && s[e] == '}'
    requires forall j :: k <= j < e ==> s[j] != '}'
    ensures CloseBrace(s, k) == Some(e)
    decreases e - k
  {
    if k < e {
      CloseBraceAt(s, k + 1, e);
    }
  }

  /** The match that starts at position i, if there is one: `{key}`, or
      `{key:` followed by a character other than a line break, any further
      characters other than '}', and '}'. */
  function MatchAt(s: string, key: string, i: nat): Option<Placeholder>
  {
    var open := "{" + key;
    if !OccursAt(s, i, open) then None
    else
      var j := i + |open|;
      if j < |s| && s[j] == '}' then Some(Placeholder(s[i..j + 1], ""))
      else if j + 1 < |s| && s[j] == ':' && s[j + 1] != '\n' then
        match CloseBrace(s, j + 2)
        case None => None
        case Some(e) => Some(Placeholder(s[i..e + 1], s[j + 1..e]))
      else None
  }

  /** A well-formed format: one character other than a line break, then
      anything but '}'. */
  predicate ValidFormat(format: string)
  {
    |format| > 0 && format[0] != '\n' && forall j :: 1 <= j < |format| ==> format[j] != '}'
  }

  /** The text of a placeholder, rebuilt from its key and its format. */
  function PlaceholderText(key: string, format: string): string
  {
    if format == [] then "{" + key + "}" else "{" + key + ":" + format + "}"
  }

  /** A plain or formatted placeholder for the key, spelled out from its
      format. */
  predicate WellFormed(key: string, p: Placeholder)
  {
    p.text == PlaceholderText(key, p.format) && (p.format == [] || ValidFormat(p.format))
  }

  /** A match is a well-formed placeholder for the key, and it occurs where
      it was found. */
  lemma MatchAtShape(s: string, key: string, i: nat)
    requires MatchAt(s, key, i).Some?
    ensures OccursAt(s, i, MatchAt(s, key, i).value.text)
    ensures WellFormed(key, MatchAt(s, key, i).value)
  {
    var open := "{" + key;
    var j := i + |open|;
    assert s[i..j] == open;
    if j < |s| && s[j] == '}' {
      var text := s[i..j + 1];
      assert MatchAt(s, key, i) == Some(Placeholder(text, ""));
      assert text == s[i..j] + ['}'];
    } else {
      var e := CloseBrace(s, j + 2).value;
      CloseBraceFirst(s, j + 2);
      var format := s[j + 1..e];
      assert MatchAt(s, key, i) == Some(Placeholder(s[i..e + 1], format));
      assert s[i..e + 1] == s[i..j] + [':'] + format + ['}'];
      forall k | 1 <= k < |format|
        ensures format[k] != '}'
      {
        assert format[k] == s[j + 1 + k];
      }
      assert ValidFormat(format);
    }
  }

  /** Conversely, a placeholder spelled out in full is matched. */
  lemma MatchAtPlaceholder(pre: string, key: string, format: string, post: string)
    requires format == [] || ValidFormat(format)
    ensures var s := pre + PlaceholderText(key, format) + post;
      MatchAt(s, key, |pre|) == Some(Placeholder(PlaceholderText(key, format), format))
  {
    var text := PlaceholderText(key, format);
    var s := pre + text + post;
    var i := |pre|;
    var j := i + |"{" + key|;
    assert s[i..i + |text|] == text;
    assert s[i..j] == "{" + key;
    if format == [] {
      assert s[j] == '}';
    } else {
      var e := i + |text| - 1;
      assert s[j] == ':' && s[j + 1] == format[0];
      assert s[j + 1..e] == format;
      assert s[e] == '}';
      forall k | j + 2 <= k < e
        ensures s[k] != '}'
      {
        assert s[k] == format[k - j - 1];
      }
      CloseBraceAt(s, j + 2, e);
    }
  }

  /** Regex.Matches: the matches from left to right, each search resuming
      after the previous match. */
  function Matches(s: string, key: string, i: nat): seq<Placeholder>
    decreases |s| - i
  {
    if i >= |s| then []
    else
      match MatchAt(s, key, i)
      case None => Matches(s, key, i + 1)
      case Some(p) => [p] + Matches(s, key, i + |p.text|)
  }

  // ---------------------------------------------------------------------
  // String.Replace and InjectSingleValue

  /** String.Replace: every occurrence of `oldValue`, from left to right
      and without overlap, replaced by `newValue`. String.Replace refuses an
      empty `oldValue`; a match is never empty, and the empty case returns `s`. */
  function ReplaceAll(s: string, oldValue: string, newValue: string): string
    decreases |s|
  {
    if oldValue == [] || |s| < |oldValue| then s
    else if s[..|oldValue|] == oldValue then newValue + ReplaceAll(s[|oldValue|..], oldValue, newValue)
    else [s[0]] + ReplaceAll(s[1..], oldValue, newValue)
  }

  /** The text that replaces a match: the value's text, transformed by
      FormatSymbol when the match has a format. */
  function Replacement(format: string, text: string): Result<string>
  {
    if |format| > 0 then Format(text, format) else Ok(text)
  }

  /** The matches, in order, each replaced throughout the current string. */
  function Substitute(s: string, ms: seq<Placeholder>, text: string): Result<string>
  {
    if ms == [] then Ok(s)
    else
      match Substitute(s, ms[..|ms| - 1], text)
      case IndexOutOfRange => IndexOutOfRange
      case Ok(r) =>
        var m := ms[|ms| - 1];
        match Replacement(m.format, text)
        case IndexOutOfRange => IndexOutOfRange
        case Ok(rep) => Ok(ReplaceAll(r, m.text, rep))
  }

  /** A null value is injected as the empty string. */
  function TextOf(value: Option<string>): string
  {
    if value.Some? then value.value else ""
  }

  /** StringInjectExtension.InjectSingleValue. */
  method InjectSingleValue(formatString: string, key: string, replacementValue: Option<string>) returns (r: Result<string>)
    ensures r == Substitute(formatString, Matches(formatString, key, 0), TextOf(replacementValue))
  {
    var result := formatString;
    var text := if replacementValue.Some? then replacementValue.value else "";
    var matches := Matches(formatString, key, 0);
    for i := 0 to |matches|
      invariant Substitute(formatString, matches[..i], text) == Ok(result)
    {
      SubstituteNext(formatString, matches, text, i);
      var m := matches[i];
      var replacement;
      if |m.format| > 0 {
        var formatted := FormatSymbol(text, m.format);
        if formatted.IndexOutOfRange? {
          SubstituteFaultSticks(formatString, matches, text, i + 1);
          return IndexOutOfRange;
        }
        replacement := formatted.value;
      } else {
        replacement := text;
      }
      result := ReplaceAll(result, m.text, replacement);
    }
    assert matches[..|matches|] == matches;
    return Ok(result);
  }

  /** Substitute over one more match. */
  lemma SubstituteNext(s: string, ms: seq<Placeholder>, text: string, i: nat)
    requires i < |ms|
    ensures Substitute(s, ms[..i + 1], text) ==
      match Substitute(s, ms[..i], text)
      case IndexOutOfRange => IndexOutOfRange
      case Ok(r) =>
        match Replacement(ms[i].format, text)
        case IndexOutOfRange => IndexOutOfRange
        case Ok(rep) => Ok(ReplaceAll(r, ms[i].text, rep))
  {
    assert ms[..i + 1][..i] == ms[..i];
  }

  lemma {:induction false} SubstituteFaultSticks(s: string, ms: seq<Placeholder>, text: string, n: nat)
    requires n <= |ms|
    requires Substitute(s, ms[..n], text) == IndexOutOfRange
    ensures Substitute(s, ms, text) == IndexOutOfRange
    decreases |ms| - n
  {
    if n == |ms| {
      assert ms[..n] == ms;
    } else {
      assert ms[..n + 1][..n] == ms[..n];
      SubstituteFaultSticks(s, ms, text, n + 1);
    }
  }

  // ---------------------------------------------------------------------
  // Inject

  /** The table's entries in the order its enumeration yields them. */
  type Entry = (string, Option<string>)

  /** Each entry injected in turn. */
  function InjectAll(s: string, entries: seq<Entry>): Result<string>
  {
    if entries == [] then Ok(s)
    else
      match InjectAll(s, entries[..|entries| - 1])
      case IndexOutOfRange => IndexOutOfRange
      case Ok(r) =>
        var e := entries[|entries| - 1];
        Substitute(r, Matches(r, e.0, 0), TextOf(e.1))
  }

  /** StringInjectExtension.Inject(string, Hashtable); a null format string
      or table is None. */
  method Inject(formatString: Option<string>, attributes: Option<seq<Entry>>) returns (r: Result<Option<string>>)
    ensures formatString.None? || attributes.None? ==> r == Ok(formatString)
    ensures formatString.Some? && attributes.Some? ==>
      r == match InjectAll(formatString.value, attributes.value)
           case IndexOutOfRange => IndexOutOfRange
           case Ok(s) => Ok(Some(s))
  {
    if attributes.None? || formatString.None? {
      return Ok(formatString);
    }
    var entries := attributes.value;
    var result := formatString.value;
    for i := 0 to |entries|
      invariant InjectAll(formatString.value, entries[..i]) == Ok(result)
    {
      assert entries[..i + 1][..i] == entries[..i];
      var next := InjectSingleValue(result, entries[i].0, entries[i].1);
      if next.IndexOutOfRange? {
        InjectFaultSticks(formatString.value, entries, i + 1);
        return IndexOutOfRange;
      }
      result := next.value;
    }
    assert entries[..|entries|] == entries;
    return Ok(Some(result));
  }

  lemma {:induction false} InjectFaultSticks(s: string, entries: seq<Entry>, n: nat)
    requires n <= |entries|
    requires InjectAll(s, entries[..n]) == IndexOutOfRange
    ensures InjectAll(s, entries) == IndexOutOfRange
    decreases |entries| - n
  {
    if n == |entries| {
      assert entries[..n] == entries;
    } else {
      assert entries[..n + 1][..n] == entries[..n];
      InjectFaultSticks(s, entries, n + 1);
    }
  }

  // ---------------------------------------------------------------------
  // What injection does

  /** Every match is a placeholder for the key, with a well-formed format or
      none, and it occurs in the string at or after where the search began. */
  lemma {:induction false} MatchesAreWellFormed(s: string, key: string, i: nat)
    ensures forall p :: p in Matches(s, key, i) ==> WellFormed(key, p)
    decreases |s| - i
  {
    if i < |s| {
      MatchesStep(s, key, i);
      match MatchAt(s, key, i)
      case None => MatchesAreWellFormed(s, key, i + 1);
      case Some(p) =>
        MatchAtShape(s, key, i);
        MatchesAreWellFormed(s, key, i + |p.text|);
        ConsMembers(p, Matches(s, key, i + |p.text|));
    }
  }

  lemma ConsMembers<T>(x: T, rest: seq<T>)
    ensures forall y :: y in [x] + rest <==> y == x || y in rest
  {
  }

  /** Where no match starts there is no match. */
  lemma {:induction false} UnmatchedNoMatches(s: string, key: string, i: nat)
    requires forall j :: i <= j < |s| ==> MatchAt(s, key, j).None?
    ensures Matches(s, key, i) == []
    decreases |s| - i
  {
    if i < |s| {
      UnmatchedNoMatches(s, key, i + 1);
    }
  }

  /** A string in which no placeholder for the key starts comes out of
      InjectSingleValue unchanged, whatever the value. */
  lemma NoMatchUnchanged(s: string, key: string, value: Option<string>)
    requires forall j :: 0 <= j < |s| ==> MatchAt(s, key, j).None?
    ensures Substitute(s, Matches(s, key, 0), TextOf(value)) == Ok(s)
  {
    UnmatchedNoMatches(s, key, 0);
  }

  /** The search passes over a stretch without '{'. */
  lemma {:induction false} MatchesSkip(s: string, key: string, i: nat, j: nat)
    requires i <= j <= |s|
    requires '{' !in s[i..j]
    ensures Matches(s, key, i) == Matches(s, key, j)
    decreases j - i
  {
    if i < j {
      assert s[i] == s[i..j][0];
      assert s[i + 1..j] == s[i..j][1..];
      NoOpenAt(s, "{" + key, i);
      MatchesSkip(s, key, i + 1, j);
    }
  }

  /** Nothing that starts with '{' occurs where '{' is not. */
  lemma NoOpenAt(s: string, p: string, i: nat)
    requires i < |s| && s[i] != '{' && p != [] && p[0] == '{'
    ensures !OccursAt(s, i, p)
  {
    if i + |p| <= |s| {
      assert s[i..i + |p|][0] == s[i];
    }
  }

  /** A string whose first character never occurs is left alone. */
  lemma {:induction false} ReplaceAllAbsent(s: string, oldValue: string, newValue: string)
    requires oldValue != [] && oldValue[0] !in s
    ensures ReplaceAll(s, oldValue, newValue) == s
    decreases |s|
  {
    if |s| >= |oldValue| {
      assert s[..|oldValue|][0] == s[0];
      assert s[0] in s;
      ReplaceAllAbsent(s[1..], oldValue, newValue);
      assert [s[0]] + s[1..] == s;
    }
  }

  /** Replacing passes over a prefix that cannot start an occurrence. */
  lemma {:induction false} ReplaceAllSkip(pre: string, rest: string, oldValue: string, newValue: string)
    requires oldValue != [] && oldValue[0] !in pre
    ensures ReplaceAll(pre + rest, oldValue, newValue) == pre + ReplaceAll(rest, oldValue, newValue)
    decreases |pre|
  {
    if pre != [] {
      var s := pre + rest;
      assert pre[0] in pre && s[0] == pre[0];
      assert s[1..] == pre[1..] + rest;
      ReplaceAllSkip(pre[1..], rest, oldValue, newValue);
      var tail := ReplaceAll(rest, oldValue, newValue);
      if |s| >= |oldValue| {
        assert s[..|oldValue|][0] == s[0];
        assert s[..|oldValue|] != oldValue;
        assert ReplaceAll(s, oldValue, newValue) == [s[0]] + ReplaceAll(s[1..], oldValue, newValue);
        assert ReplaceAll(s, oldValue, newValue) == [pre[0]] + (pre[1..] + tail);
        assert [pre[0]] + (pre[1..] + tail) == ([pre[0]] + pre[1..]) + tail;
      } else {
        assert tail == rest;
      }
      assert [pre[0]] + pre[1..] == pre;
    } else {
      assert pre + rest == rest;
    }
  }

  /** An occurrence at the start is replaced. */
  lemma ReplaceAllHead(rest: string, oldValue: string, newValue: string)
    requires oldValue != []
    ensures ReplaceAll(oldValue + rest, oldValue, newValue) == newValue + ReplaceAll(rest, oldValue, newValue)
  {
    var s := oldValue + rest;
    assert s[..|oldValue|] == oldValue;
    assert s[|oldValue|..] == rest;
  }

  /** The one occurrence in a template is replaced. */
  lemma ReplaceTemplate(pre: string, text: string, post: string, rep: string)
    requires text != [] && text[0] !in pre && text[0] !in post
    ensures ReplaceAll(pre + text + post, text, rep) == pre + rep + post
  {
    assert pre + text + post == pre + (text + post);
    ReplaceAllSkip(pre, text + post, text, rep);
    ReplaceAllHead(post, text, rep);
    ReplaceAllAbsent(post, text, rep);
    assert pre + (rep + post) == pre + rep + post;
  }

  /** The one placeholder of a template is its one match. */
  lemma TemplateMatches(pre: string, key: string, format: string, post: string)
    requires '{' !in pre && '{' !in post
    requires format == [] || ValidFormat(format)
    ensures var s := pre + PlaceholderText(key, format) + post;
      Matches(s, key, 0) == [Placeholder(PlaceholderText(key, format), format)]
  {
    var text := PlaceholderText(key, format);
    var s := pre + text + post;
    var p := Placeholder(text, format);
    MatchAtPlaceholder(pre, key, format, post);
    MatchesFound(s, key, |pre|, p);
    OnlyMatch(s, key, p, pre, post);
  }

  /** A match with no '{' before or after it is the only one. */
  lemma OnlyMatch(s: string, key: string, p: Placeholder, pre: string, post: string)
    requires s == pre + p.text + post
    requires Matches(s, key, |pre|) == [p] + Matches(s, key, |pre| + |p.text|)
    requires '{' !in pre && '{' !in post
    ensures Matches(s, key, 0) == [p]
  {
    Pieces(pre, p.text, post);
    MatchesSkip(s, key, 0, |pre|);
    MatchesSkip(s, key, |pre| + |p.text|, |s|);
  }

  /** The pieces of a three-part concatenation. */
  lemma Pieces<T>(a: seq<T>, b: seq<T>, c: seq<T>)
    ensures (a + b + c)[0..|a|] == a
    ensures (a + b + c)[|a| + |b|..|a + b + c|] == c
  {
  }

  /** A match found, and the search resumed after it. */
  lemma MatchesFound(s: string, key: string, i: nat, p: Placeholder)
    requires i < |s| && MatchAt(s, key, i) == Some(p)
    ensures Matches(s, key, i) == [p] + Matches(s, key, i + |p.text|)
  {
    MatchesStep(s, key, i);
  }

  lemma MatchesStep(s: string, key: string, i: nat)
    requires i < |s|
    ensures Matches(s, key, i) ==
      if MatchAt(s, key, i).None? then Matches(s, key, i + 1)
      else [MatchAt(s, key, i).value] + Matches(s, key, i + |MatchAt(s, key, i).value.text|)
  {
  }

  /** A template with one placeholder for the key, and no other '{': the
      placeholder is replaced by the value's text, null giving the empty
      string, transformed by the format when there is one. */
  lemma InjectTemplate(pre: string, key: string, format: string, post: string, value: Option<string>)
    requires '{' !in pre && '{' !in post
    requires format == [] || ValidFormat(format)
    ensures var s := pre + PlaceholderText(key, format) + post;
      var r := Substitute(s, Matches(s, key, 0), TextOf(value));
      (format == [] ==> r == Ok(pre + TextOf(value) + post))
      && (format != [] ==> r == match Format(TextOf(value), format)
                                case IndexOutOfRange => IndexOutOfRange
                                case Ok(f) => Ok(pre + f + post))
      && (value.None? && format == [] ==> r == Ok(pre + post))
  {
    var text := PlaceholderText(key, format);
    var s := pre + text + post;
    var p := Placeholder(text, format);
    TemplateMatches(pre, key, format, post);
    assert [p][..0] == [];
    assert Substitute(s, [p][..0], TextOf(value)) == Ok(s);
    match Replacement(p.format, TextOf(value))
    case IndexOutOfRange =>
    case Ok(rep) =>
      ReplaceTemplate(pre, text, post, rep);
      assert Substitute(s, [p], TextOf(value)) == Ok(pre + rep + post);
      if value.None? && format == [] {
        assert pre + rep + post == pre + post;
      }
  }

  /** A string without '{' comes out of Inject unchanged, whatever the
      table holds. */
  lemma {:induction false} InjectAllNoPlaceholder(s: string, entries: seq<Entry>)
    requires '{' !in s
    ensures InjectAll(s, entries) == Ok(s)
  {
    if entries != [] {
      InjectAllNoPlaceholder(s, entries[..|entries| - 1]);
      assert s[0..|s|] == s;
      MatchesSkip(s, entries[|entries| - 1].0, 0, |s|);
    }
  }

  /** Injecting one more entry. */
  lemma InjectAllSnoc(s: string, entries: seq<Entry>, e: Entry)
    ensures InjectAll(s, entries + [e]) == match InjectAll(s, entries)
      case IndexOutOfRange => IndexOutOfRange
      case Ok(r) => Substitute(r, Matches(r, e.0, 0), TextOf(e.1))
  {
    assert (entries + [e])[..|entries|] == entries;
  }

  /** A template that is just one plain placeholder becomes the value. */
  lemma InjectWhole(key: string, value: Option<string>)
    ensures var s := "{" + key + "}";
      Substitute(s, Matches(s, key, 0), TextOf(value)) == Ok(TextOf(value))
  {
    InjectTemplate("", key, "", "", value);
    assert "" + PlaceholderText(key, "") + "" == "{" + key + "}";
    assert "" + TextOf(value) + "" == TextOf(value);
  }

  /** Values are injected in the order the table is enumerated, and a value
      that itself holds a placeholder is injected into by later keys: the
      same table enumerated in two orders gives two results. */
  lemma InjectOrderMatters()
    ensures InjectAll("{a}", [("a", Some("{b}")), ("b", Some("x"))]) == Ok("x")
    ensures InjectAll("{a}", [("b", Some("x")), ("a", Some("{b}"))]) == Ok("{b}")
  {
    var a: Entry := ("a", Some("{b}"));
    var b: Entry := ("b", Some("x"));
    assert "{a}" == "{" + "a" + "}" && "{b}" == "{" + "b" + "}";
    InjectWhole("a", Some("{b}"));
    InjectWhole("b", Some("x"));
    InjectAllSnoc("{a}", [], a);
    InjectAllSnoc("{a}", [a], b);
    assert [a] + [b] == [a, b];
    forall j | 0 <= j < 3
      ensures MatchAt("{a}", "b", j).None?
    {
      assert !OccursAt("{a}", j, "{" + "b") by {
        if j == 1 {
          assert "{a}"[1] == 'a';
        }
      }
    }
    UnmatchedNoMatches("{a}", "b", 0);
    InjectAllSnoc("{a}", [], b);
    InjectAllSnoc("{a}", [b], a);
    assert [b] + [a] == [b, a];
  }

  // ---------------------------------------------------------------------
  // Templates: literal text and placeholders, and what injection promises

  /** A template written out as pieces: literal text, and placeholders
      naming a key and a format (empty for a plain `{key}`). */
  datatype Piece = Literal(text: string) | Hole(key: string, format: string)

  function PieceText(p: Piece): string
  {
    match p
    case Literal(t) => t
    case Hole(k, f) => PlaceholderText(k, f)
  }

  /** The string the pieces spell. */
  function Render(ps: seq<Piece>): string
  {
    if ps == [] then "" else PieceText(ps[0]) + Render(ps[1..])
  }

  function RenderResult(r: Result<seq<Piece>>): Result<string>
  {
    match r
    case IndexOutOfRange => IndexOutOfRange
    case Ok(ps) => Ok(Render(ps))
  }

  /** A key the pattern treats as plain text and that cannot run into what
      follows it: no brace and no colon. */
  predicate KeyName(key: string)
  {
    forall c :: c in key ==> c != '{' && c != '}' && c != ':'
  }

  /** A format a placeholder can carry that holds no '{'. */
  predicate HoleFormat(format: string)
  {
    format == [] || (ValidFormat(format) && '{' !in format)
  }

  predicate PieceOk(p: Piece)
  {
    match p
    case Literal(t) => '{' !in t
    case Hole(k, f) => KeyName(k) && HoleFormat(f)
  }

  /** Every '{' of the rendered string begins a placeholder. */
  predicate Template(ps: seq<Piece>)
  {
    forall i :: 0 <= i < |ps| ==> PieceOk(ps[i])
  }

  /** What injection promises: every placeholder whose key the table holds
      becomes that key's text, transformed by the placeholder's format;
      every other piece stays as it is. A format that faults on the text
      makes the whole result fault. */
  function Resolve(ps: seq<Piece>, table: map<string, string>): Result<seq<Piece>>
  {
    if ps == [] then Ok([])
    else
      match Resolve(ps[1..], table)
      case IndexOutOfRange => IndexOutOfRange
      case Ok(rest) =>
        match ps[0]
        case Literal(_) => Ok([ps[0]] + rest)
        case Hole(k, f) =>
          if k !in table then Ok([ps[0]] + rest)
          else
            match Replacement(f, table[k])
            case IndexOutOfRange => IndexOutOfRange
            case Ok(r) => Ok([Literal(r)] + rest)
  }

  lemma TemplateTail(ps: seq<Piece>)
    requires Template(ps) && ps != []
    ensures PieceOk(ps[0]) && Template(ps[1..])
  {
    forall i | 0 <= i < |ps| - 1
      ensures PieceOk(ps[1..][i])
    {
      assert ps[1..][i] == ps[i + 1];
    }
  }

  /** The layout of a placeholder's text. */
  lemma PlaceholderShape(k: string, f: string)
    ensures var a := PlaceholderText(k, f);
      a[0] == '{' && a[1..|k| + 1] == k && a[|a| - 1] == '}'
      && (f == [] ==> |a| == |k| + 2 && a[|k| + 1] == '}')
      && (f != [] ==> |a| == |k| + |f| + 3 && a[|k| + 1] == ':' && a[|k| + 2..|k| + 2 + |f|] == f)
  {
  }

  /** After its opening brace a placeholder holds no '{'. */
  lemma PlaceholderTail(k: string, f: string)
    requires KeyName(k) && '{' !in f
    ensures '{' !in PlaceholderText(k, f)[1..]
  {
    var a := PlaceholderText(k, f);
    if f == [] {
      assert a[1..] == k + "}";
    } else {
      assert a[1..] == k + ":" + f + "}";
    }
  }

  /** A placeholder for another key is no match for this one. */
  lemma NoForeignMatch(pre: string, k: string, f: string, key: string, post: string)
    requires KeyName(k) && KeyName(key) && k != key
    ensures MatchAt(pre + PlaceholderText(k, f) + post, key, |pre|).None?
  {
    var a := PlaceholderText(k, f);
    var s := pre + a + post;
    var i := |pre|;
    var open := "{" + key;
    PlaceholderShape(k, f);
    assert s[i..i + |a|] == a;
    if |key| < |k| {
      // the character after `{key` belongs to k: neither '}' nor ':'
      assert s[i + 1 + |key|] == a[1 + |key|] == k[|key|];
      assert k[|key|] in k;
    } else if |k| < |key| {
      // the '}' or ':' after k meets a character of key
      if i + |open| <= |s| {
        assert s[i + 1 + |k|] == a[1 + |k|];
        assert open[1 + |k|] == key[|k|] && key[|k|] in key;
        assert s[i..i + |open|][1 + |k|] != open[1 + |k|];
      }
    } else {
      var m :| 0 <= m < |k| && k[m] != key[m];
      if i + |open| <= |s| {
        assert s[i + 1 + m] == a[1 + m] == k[m];
        assert s[i..i + |open|][1 + m] != open[1 + m];
      }
    }
  }

  /** The search finds exactly the template's placeholders for the key, in
      order. */
  function HolesOf(ps: seq<Piece>, key: string): seq<Placeholder>
  {
    if ps == [] then [] else PieceMatches(ps[0], key) + HolesOf(ps[1..], key)
  }

  /** The match one piece holds: itself when it is a placeholder for the
      key, none otherwise. */
  function PieceMatches(p: Piece, key: string): seq<Placeholder>
  {
    if p.Hole? && p.key == key then [Placeholder(PlaceholderText(key, p.format), p.format)] else []
  }

  lemma {:induction false} HolesFormats(ps: seq<Piece>, key: string)
    requires Template(ps)
    ensures forall m :: m in HolesOf(ps, key) ==> m.text == PlaceholderText(key, m.format) && HoleFormat(m.format)
    decreases |ps|
  {
    if ps != [] {
      TemplateTail(ps);
      HolesFormats(ps[1..], key);
    }
  }

  /** The matches of the pattern in a rendered template are its
      placeholders for the key, in order. */
  lemma {:induction false} MatchesOfTemplate(s: string, i: nat, ps: seq<Piece>, key: string)
    requires Template(ps) && KeyName(key)
    requires i <= |s| && s[i..] == Render(ps)
    ensures Matches(s, key, i) == HolesOf(ps, key)
    decreases |ps|
  {
    if ps != [] {
      var a := PieceText(ps[0]);
      SplitSuffix(s, i, a, Render(ps[1..]));
      TemplateTail(ps);
      var j := i + |a|;
      MatchesOfTemplate(s, j, ps[1..], key);
      MatchesPastPiece(s, i, ps[0], key);
    }
  }

  /** A suffix made of two parts. */
  lemma SplitSuffix<T>(s: seq<T>, i: nat, a: seq<T>, b: seq<T>)
    requires i <= |s| && s[i..] == a + b
    ensures i + |a| <= |s| && s[i..i + |a|] == a && s[i + |a|..] == b
  {
    assert s[i..i + |a|] == (a + b)[..|a|];
    assert s[i + |a|..] == (a + b)[|a|..];
  }

  /** The search over one piece: a literal holds no match, a placeholder
      for the key is one, and a placeholder for another key is none. */
  lemma MatchesPastPiece(s: string, i: nat, p: Piece, key: string)
    requires PieceOk(p) && KeyName(key)
    requires i + |PieceText(p)| <= |s| && s[i..i + |PieceText(p)|] == PieceText(p)
    ensures Matches(s, key, i) == PieceMatches(p, key) + Matches(s, key, i + |PieceText(p)|)
  {
    if p.Literal? {
      MatchesPastLiteral(s, i, p, key);
    } else if p.key == key {
      MatchesPastOwn(s, i, p, key);
    } else {
      MatchesPastForeign(s, i, p, key);
    }
  }

  lemma MatchesPastLiteral(s: string, i: nat, p: Piece, key: string)
    requires p.Literal? && PieceOk(p)
    requires i + |PieceText(p)| <= |s| && s[i..i + |PieceText(p)|] == PieceText(p)
    ensures Matches(s, key, i) == PieceMatches(p, key) + Matches(s, key, i + |PieceText(p)|)
  {
    var t := p.text;
    assert PieceText(p) == t;
    MatchesSkip(s, key, i, i + |t|);
    EmptyThen(Matches(s, key, i), PieceMatches(p, key), Matches(s, key, i + |t|));
  }

  lemma MatchesPastOwn(s: string, i: nat, p: Piece, key: string)
    requires p.Hole? && p.key == key && PieceOk(p)
    requires i + |PieceText(p)| <= |s| && s[i..i + |PieceText(p)|] == PieceText(p)
    ensures Matches(s, key, i) == PieceMatches(p, key) + Matches(s, key, i + |PieceText(p)|)
  {
    assert PieceText(p) == PlaceholderText(key, p.format);
    OwnPlaceholderMatch(s, i, p.format, key);
  }

  lemma MatchesPastForeign(s: string, i: nat, p: Piece, key: string)
    requires p.Hole? && p.key != key && PieceOk(p) && KeyName(key)
    requires i + |PieceText(p)| <= |s| && s[i..i + |PieceText(p)|] == PieceText(p)
    ensures Matches(s, key, i) == PieceMatches(p, key) + Matches(s, key, i + |PieceText(p)|)
  {
    var a := PlaceholderText(p.key, p.format);
    assert PieceText(p) == a;
    ForeignPlaceholderSkip(s, i, p.key, p.format, key);
    EmptyThen(Matches(s, key, i), PieceMatches(p, key), Matches(s, key, i + |a|));
  }

  lemma EmptyThen<T>(x: seq<T>, e: seq<T>, y: seq<T>)
    requires e == [] && x == y
    ensures x == e + y
  {
  }

  lemma OwnPlaceholderMatch(s: string, i: nat, f: string, key: string)
    requires HoleFormat(f)
    requires i + |PlaceholderText(key, f)| <= |s| && s[i..i + |PlaceholderText(key, f)|] == PlaceholderText(key, f)
    ensures Matches(s, key, i) == [Placeholder(PlaceholderText(key, f), f)] + Matches(s, key, i + |PlaceholderText(key, f)|)
  {
    var a := PlaceholderText(key, f);
    assert s == s[..i] + a + s[i + |a|..];
    MatchAtPlaceholder(s[..i], key, f, s[i + |a|..]);
    MatchesFound(s, key, i, Placeholder(a, f));
  }

  lemma ForeignPlaceholderSkip(s: string, i: nat, k: string, f: string, key: string)
    requires KeyName(k) && KeyName(key) && k != key && HoleFormat(f)
    requires i + |PlaceholderText(k, f)| <= |s| && s[i..i + |PlaceholderText(k, f)|] == PlaceholderText(k, f)
    ensures Matches(s, key, i) == Matches(s, key, i + |PlaceholderText(k, f)|)
  {
    var a := PlaceholderText(k, f);
    assert s == s[..i] + a + s[i + |a|..];
    NoForeignMatch(s[..i], k, f, key, s[i + |a|..]);
    MatchesStep(s, key, i);
    PlaceholderTail(k, f);
    assert s[i + 1..i + |a|] == a[1..];
    MatchesSkip(s, key, i + 1, i + |a|);
  }

  /** Two different placeholders differ at a position inside both. */
  lemma PlaceholdersDiffer(k: string, f: string, key: string, g: string) returns (d: nat)
    requires KeyName(k) && KeyName(key) && HoleFormat(f) && HoleFormat(g)
    requires k != key || f != g
    ensures d < |PlaceholderText(k, f)| && d < |PlaceholderText(key, g)|
    ensures PlaceholderText(k, f)[d] != PlaceholderText(key, g)[d]
  {
    var a, b := PlaceholderText(k, f), PlaceholderText(key, g);
    PlaceholderShape(k, f);
    PlaceholderShape(key, g);
    if |k| < |key| {
      d := |k| + 1;
      assert b[d] == key[|k|] && key[|k|] in key;
    } else if |key| < |k| {
      d := |key| + 1;
      assert a[d] == k[|key|] && k[|key|] in k;
    } else if k != key {
      var m :| 0 <= m < |k| && k[m] != key[m];
      d := m + 1;
      assert a[d] == k[m] && b[d] == key[m];
    } else if f == [] || g == [] {
      d := |k| + 1;
    } else if |f| < |g| {
      d := |k| + 2 + |f|;
      assert b[d] == g[|f|];
    } else if |g| < |f| {
      d := |k| + 2 + |g|;
      assert a[d] == f[|g|];
    } else {
      var m :| 0 <= m < |f| && f[m] != g[m];
      d := |k| + 2 + m;
      assert a[d] == f[m] && b[d] == g[m];
    }
  }

  /** Replacing passes over a piece that begins like the old value but
      differs from it inside both. */
  lemma ReplaceAllPast(a: string, rest: string, oldValue: string, newValue: string, d: nat)
    requires d < |a| && d < |oldValue| && a[d] != oldValue[d]
    requires oldValue[0] !in a[1..]
    ensures ReplaceAll(a + rest, oldValue, newValue) == a + ReplaceAll(rest, oldValue, newValue)
  {
    var s := a + rest;
    var tail := ReplaceAll(rest, oldValue, newValue);
    if |s| >= |oldValue| {
      assert s[..|oldValue|][d] == a[d];
      assert ReplaceAll(s, oldValue, newValue) == [a[0]] + ReplaceAll(s[1..], oldValue, newValue);
      ConsTail(a, rest);
      ReplaceAllSkip(a[1..], rest, oldValue, newValue);
      ConsTail(a, tail);
    } else {
      assert tail == rest;
    }
  }

  /** A non-empty front and what follows it. */
  lemma ConsTail<T>(a: seq<T>, b: seq<T>)
    requires a != []
    ensures (a + b)[1..] == a[1..] + b && [a[0]] + (a[1..] + b) == a + b
  {
  }

  /** Every placeholder for the key with the given format turned into the
      literal text `rep`. */
  function ReplaceHoles(ps: seq<Piece>, key: string, format: string, rep: string): seq<Piece>
  {
    if ps == [] then []
    else [if ps[0] == Hole(key, format) then Literal(rep) else ps[0]] + ReplaceHoles(ps[1..], key, format, rep)
  }

  /** String.Replace of one placeholder's text, on a rendered template,
      replaces exactly the placeholders spelled that way. */
  lemma {:induction false} ReplaceRendered(ps: seq<Piece>, key: string, format: string, rep: string)
    requires Template(ps) && KeyName(key) && HoleFormat(format)
    ensures ReplaceAll(Render(ps), PlaceholderText(key, format), rep) == Render(ReplaceHoles(ps, key, format, rep))
    decreases |ps|
  {
    if ps != [] {
      var oldText := PlaceholderText(key, format);
      var rest := Render(ps[1..]);
      TemplateTail(ps);
      ReplaceRendered(ps[1..], key, format, rep);
      PlaceholderShape(key, format);
      match ps[0]
      case Literal(t) =>
        ReplaceAllSkip(t, rest, oldText, rep);
      case Hole(k, f) =>
        if ps[0] == Hole(key, format) {
          ReplaceAllHead(rest, oldText, rep);
        } else {
          var d := PlaceholdersDiffer(k, f, key, format);
          PlaceholderTail(k, f);
          ReplaceAllPast(PlaceholderText(k, f), rest, oldText, rep, d);
        }
    }
  }

  /** The placeholders for the key whose format is in `formats`, each
      turned into the text under its format; one whose format faults is
      left as it is. */
  function FillFormats(ps: seq<Piece>, key: string, text: string, formats: set<string>): seq<Piece>
  {
    if ps == [] then []
    else
      var p := ps[0];
      var q := if p.Hole? && p.key == key && p.format in formats && Replacement(p.format, text).Ok?
        then Literal(Replacement(p.format, text).value) else p;
      [q] + FillFormats(ps[1..], key, text, formats)
  }

  function Formats(ms: seq<Placeholder>): set<string>
  {
    set m | m in ms :: m.format
  }

  predicate AnyFault(formats: set<string>, text: string)
  {
    exists f :: f in formats && Replacement(f, text).IndexOutOfRange?
  }

  lemma {:induction false} FillNothing(ps: seq<Piece>, key: string, text: string)
    ensures FillFormats(ps, key, text, {}) == ps
    decreases |ps|
  {
    if ps != [] {
      FillNothing(ps[1..], key, text);
    }
  }

  lemma {:induction false} FillOneMore(ps: seq<Piece>, key: string, text: string, formats: set<string>, g: string, rep: string)
    requires Replacement(g, text) == Ok(rep)
    ensures ReplaceHoles(FillFormats(ps, key, text, formats), key, g, rep) == FillFormats(ps, key, text, formats + {g})
    decreases |ps|
  {
    if ps != [] {
      FillOneMore(ps[1..], key, text, formats, g, rep);
    }
  }

  /** The transforms never make a '{'. */
  lemma {:induction false} SplitNoOpen(s: string)
    requires '{' !in s
    ensures '{' !in SplitAtCapitals(s)
    decreases |s|
  {
    if |s| > 1 {
      assert forall c :: c in s[..|s| - 1] ==> c in s;
      SplitNoOpen(s[..|s| - 1]);
      assert s[|s| - 1] in s;
    }
  }

  lemma ApplyNoOpen(c: char, s: string)
    requires '{' !in s
    ensures ApplySpecifier(c, s).Ok? ==> '{' !in ApplySpecifier(c, s).value
  {
    if c == 's' {
      SplitNoOpen(s);
    } else if c == 'U' {
      forall i | 0 <= i < |s|
        ensures ToUpper(s)[i] != '{'
      {
        assert s[i] in s;
      }
    } else if c == 'L' {
      forall i | 0 <= i < |s|
        ensures ToLower(s)[i] != '{'
      {
        assert s[i] in s;
      }
    } else if s != [] {
      assert s[0] in s;
      assert forall x :: x in s[1..] ==> x in s;
    }
  }

  lemma {:induction false} FormatNoOpen(symbol: string, specifier: string)
    requires '{' !in symbol
    ensures Format(symbol, specifier).Ok? ==> '{' !in Format(symbol, specifier).value
    decreases |specifier|
  {
    if specifier != [] {
      FormatNoOpen(symbol, specifier[..|specifier| - 1]);
      match Format(symbol, specifier[..|specifier| - 1])
      case IndexOutOfRange =>
      case Ok(s) => ApplyNoOpen(specifier[|specifier| - 1], s);
    }
  }

  lemma {:induction false} FillTemplate(ps: seq<Piece>, key: string, text: string, formats: set<string>)
    requires Template(ps) && '{' !in text
    ensures Template(FillFormats(ps, key, text, formats))
    decreases |ps|
  {
    if ps != [] {
      TemplateTail(ps);
      FillTemplate(ps[1..], key, text, formats);
      var qs := FillFormats(ps, key, text, formats);
      if ps[0].Hole? {
        FormatNoOpen(text, ps[0].format);
      }
      assert PieceOk(qs[0]);
      forall i | 0 <= i < |qs|
        ensures PieceOk(qs[i])
      {
        if i > 0 {
          assert qs[i] == qs[1..][i - 1];
        }
      }
    }
  }

  /** The matches replaced one after another, on a rendered template: the
      placeholders whose formats were matched become their texts, unless
      one of those formats faults. */
  lemma {:induction false} SubstituteRendered(ps: seq<Piece>, key: string, text: string, ms: seq<Placeholder>)
    requires Template(ps) && KeyName(key) && '{' !in text
    requires forall m :: m in ms ==> m.text == PlaceholderText(key, m.format) && HoleFormat(m.format)
    ensures Substitute(Render(ps), ms, text)
      == if AnyFault(Formats(ms), text) then IndexOutOfRange
         else Ok(Render(FillFormats(ps, key, text, Formats(ms))))
    decreases |ms|
  {
    if ms == [] {
      FillNothing(ps, key, text);
      assert Formats(ms) == {};
    } else {
      var init := ms[..|ms| - 1];
      var m := ms[|ms| - 1];
      assert ms == init + [m];
      assert forall q :: q in ms <==> q in init || q == m;
      assert Formats(ms) == Formats(init) + {m.format};
      SubstituteRendered(ps, key, text, init);
      if !AnyFault(Formats(init), text) {
        match Replacement(m.format, text)
        case IndexOutOfRange =>
          assert m.format in Formats(ms);
        case Ok(rep) =>
          FillTemplate(ps, key, text, Formats(init));
          ReplaceRendered(FillFormats(ps, key, text, Formats(init)), key, m.format, rep);
          FillOneMore(ps, key, text, Formats(init), m.format, rep);
      }
    }
  }

  /** The reference, for one key: it faults when one of the key's
      placeholders has a faulting format, and otherwise fills every
      placeholder for the key. */
  lemma {:induction false} ResolveOneKey(ps: seq<Piece>, key: string, text: string, formats: set<string>)
    requires Formats(HolesOf(ps, key)) <= formats
    ensures Resolve(ps, map[key := text])
      == if AnyFault(Formats(HolesOf(ps, key)), text) then IndexOutOfRange
         else Ok(FillFormats(ps, key, text, formats))
    decreases |ps|
  {
    if ps != [] {
      var head := PieceMatches(ps[0], key);
      var tail := HolesOf(ps[1..], key);
      assert HolesOf(ps, key) == head + tail;
      assert forall q :: q in head + tail <==> q in head || q in tail;
      assert Formats(HolesOf(ps, key)) == Formats(head) + Formats(tail);
      ResolveOneKey(ps[1..], key, text, formats);
      if head != [] {
        assert ps[0].format in Formats(HolesOf(ps, key));
      }
    }
  }

  /** InjectSingleValue on a template fills every placeholder for the key,
      each under its own format, and leaves the rest alone: it is the
      reference with a table of that one key. */
  lemma InjectSingleValueFills(ps: seq<Piece>, key: string, value: Option<string>)
    requires Template(ps) && KeyName(key) && '{' !in TextOf(value)
    ensures var s := Render(ps);
      Substitute(s, Matches(s, key, 0), TextOf(value)) == RenderResult(Resolve(ps, map[key := TextOf(value)]))
  {
    var text := TextOf(value);
    var ms := HolesOf(ps, key);
    MatchesOfTemplate(Render(ps), 0, ps, key);
    HolesFormats(ps, key);
    SubstituteRendered(ps, key, text, ms);
    ResolveOneKey(ps, key, text, Formats(ms));
  }

  /** The table a sequence of entries enumerates: each key bound to the
      text of its value. */
  function TableOf(entries: seq<Entry>): map<string, string>
  {
    if entries == [] then map[]
    else TableOf(entries[..|entries| - 1])[entries[|entries| - 1].0 := TextOf(entries[|entries| - 1].1)]
  }

  /** A Hashtable holds each key once. */
  predicate DistinctKeys(entries: seq<Entry>)
  {
    forall i, j :: 0 <= i < j < |entries| ==> entries[i].0 != entries[j].0
  }

  lemma {:induction false} KeyNotInTable(entries: seq<Entry>, key: string)
    requires forall i :: 0 <= i < |entries| ==> entries[i].0 != key
    ensures key !in TableOf(entries)
    decreases |entries|
  {
    if entries != [] {
      KeyNotInTable(entries[..|entries| - 1], key);
    }
  }

  lemma {:induction false} TableTexts(entries: seq<Entry>)
    requires forall i :: 0 <= i < |entries| ==> '{' !in TextOf(entries[i].1)
    ensures forall k :: k in TableOf(entries) ==> '{' !in TableOf(entries)[k]
    decreases |entries|
  {
    if entries != [] {
      TableTexts(entries[..|entries| - 1]);
    }
  }

  /** Filling one more key after the others is filling them all at once. */
  lemma {:induction false} ResolveCompose(ps: seq<Piece>, table: map<string, string>, key: string, text: string)
    requires key !in table
    ensures Resolve(ps, table[key := text])
      == match Resolve(ps, table)
         case IndexOutOfRange => IndexOutOfRange
         case Ok(qs) => Resolve(qs, map[key := text])
    decreases |ps|
  {
    if ps != [] {
      ResolveCompose(ps[1..], table, key, text);
      match Resolve(ps, table)
      case IndexOutOfRange =>
      case Ok(qs) =>
        assert qs[1..] == Resolve(ps[1..], table).value;
    }
  }

  /** Filling keeps every '{' at the start of a placeholder when the texts
      hold none. */
  lemma {:induction false} ResolveTemplate(ps: seq<Piece>, table: map<string, string>)
    requires Template(ps)
    requires forall k :: k in table ==> '{' !in table[k]
    ensures Resolve(ps, table).Ok? ==> Template(Resolve(ps, table).value)
    decreases |ps|
  {
    if ps != [] && Resolve(ps, table).Ok? {
      TemplateTail(ps);
      ResolveTemplate(ps[1..], table);
      var qs := Resolve(ps, table).value;
      if ps[0].Hole? && ps[0].key in table {
        FormatNoOpen(table[ps[0].key], ps[0].format);
      }
      assert PieceOk(qs[0]);
      forall i | 0 <= i < |qs|
        ensures PieceOk(qs[i])
      {
        if i > 0 {
          assert qs[i] == qs[1..][i - 1];
        }
      }
    }
  }

  lemma {:induction false} ResolveNothing(ps: seq<Piece>)
    ensures Resolve(ps, map[]) == Ok(ps)
    decreases |ps|
  {
    if ps != [] {
      ResolveNothing(ps[1..]);
      assert [ps[0]] + ps[1..] == ps;
    }
  }

  /** Inject on a template, with values whose texts hold no '{': the
      result is the reference filled from the whole table, so every
      placeholder for a key of the table becomes that key's (formatted)
      text and every other placeholder stays. */
  lemma {:induction false} InjectFills(ps: seq<Piece>, entries: seq<Entry>)
    requires Template(ps) && DistinctKeys(entries)
    requires forall i :: 0 <= i < |entries| ==> KeyName(entries[i].0) && '{' !in TextOf(entries[i].1)
    ensures InjectAll(Render(ps), entries) == RenderResult(Resolve(ps, TableOf(entries)))
    decreases |entries|
  {
    if entries == [] {
      ResolveNothing(ps);
    } else {
      var init := entries[..|entries| - 1];
      var e := entries[|entries| - 1];
      assert forall i :: 0 <= i < |init| ==> init[i] == entries[i];
      InjectFills(ps, init);
      KeyNotInTable(init, e.0);
      TableTexts(init);
      ResolveCompose(ps, TableOf(init), e.0, TextOf(e.1));
      match Resolve(ps, TableOf(init))
      case IndexOutOfRange =>
      case Ok(qs) =>
        ResolveTemplate(ps, TableOf(init));
        InjectSingleValueFills(qs, e.0, e.1);
    }
  }

  /** Under the same conditions the enumeration order does not matter:
      two enumerations of one table give one result. */
  lemma InjectOrderIrrelevant(ps: seq<Piece>, a: seq<Entry>, b: seq<Entry>)
    requires Template(ps) && DistinctKeys(a) && DistinctKeys(b) && TableOf(a) == TableOf(b)
    requires forall i :: 0 <= i < |a| ==> KeyName(a[i].0) && '{' !in TextOf(a[i].1)
    requires forall i :: 0 <= i < |b| ==> KeyName(b[i].0) && '{' !in TextOf(b[i].1)
    ensures InjectAll(Render(ps), a) == InjectAll(Render(ps), b)
  {
    InjectFills(ps, a);
    InjectFills(ps, b);
  }
}
