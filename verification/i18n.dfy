/** Translation lookup for the site: picking the language from the
    browser's, splitting a dotted key, looking it up in the loaded
    translation tables with English as the fallback, and filling
    `{{name}}` placeholders from parameters. */
module I18n {
  import opened Wrappers
  import opened Seqs

  /** The languages the site ships, in the order it lists them. */
  const SupportedLanguages: seq<string> := ["en", "ja"]

  const FallbackLanguage: string := "en"

  /** A parsed translation file: nested objects whose leaves are strings;
      `Other` is any other value (a number, a boolean, null). */
  datatype Json = Str(text: string) | Obj(fields: map<string, Json>) | Other

  // ---------------------------------------------------------------------
  // Splitting on a separator, as String.prototype.split does for a
  // one-character separator.

  /** The pieces of `s` between occurrences of `sep`; always at least one
      piece, and an empty piece wherever two separators meet or `s` starts
      or ends with one. */
  function Split(s: string, sep: char): (parts: seq<string>)
    ensures |parts| >= 1
    ensures parts[0] == s[..IndexOf(s, sep)]
    decreases |s|
  {
    var i := IndexOf(s, sep);
    if i == |s| then [s]
    else [s[..i]] + Split(s[i + 1..], sep)
  }

  /** The two cases of `Split`: no separator, or a first piece followed by
      the pieces of the text after the first separator. */
  lemma SplitUnfold(s: string, sep: char)
    ensures IndexOf(s, sep) == |s| ==> Split(s, sep) == [s]
    ensures IndexOf(s, sep) < |s| ==>
      Split(s, sep) == [s[..IndexOf(s, sep)]] + Split(s[IndexOf(s, sep) + 1..], sep)
  {
  }

  /** No piece contains the separator. */
  lemma {:induction false} SplitPiecesFree(s: string, sep: char)
    ensures forall k :: 0 <= k < |Split(s, sep)| ==> sep !in Split(s, sep)[k]
    decreases |s|
  {
    var i := IndexOf(s, sep);
    SplitUnfold(s, sep);
    assert sep !in s[..i];
    if i < |s| {
      SplitPiecesFree(s[i + 1..], sep);
    }
  }

  /** The pieces joined back together with `sep` between neighbours. */
  function Join(parts: seq<string>, sep: char): string
    requires |parts| >= 1
  {
    if |parts| == 1 then parts[0] else parts[0] + [sep] + Join(parts[1..], sep)
  }

  lemma JoinCons(a: string, parts: seq<string>, sep: char)
    requires |parts| >= 1
    ensures Join([a] + parts, sep) == a + [sep] + Join(parts, sep)
  {
    assert ([a] + parts)[1..] == parts;
  }

  /** Splitting loses nothing: joining the pieces gives the text back. */
  lemma {:induction false} JoinSplit(s: string, sep: char)
    ensures Join(Split(s, sep), sep) == s
    decreases |s|
  {
    var i := IndexOf(s, sep);
    SplitUnfold(s, sep);
    if i < |s| {
      var rest := s[i + 1..];
      JoinSplit(rest, sep);
      JoinCons(s[..i], Split(rest, sep), sep);
      SplitAround(s, i);
    }
  }

  /** Splitting text that does not contain `sep` gives the one piece. */
  lemma SplitWithoutSeparator(s: string, sep: char)
    requires sep !in s
    ensures Split(s, sep) == [s]
  {
    assert IndexOf(s, sep) == |s|;
    SplitUnfold(s, sep);
  }

  /** Where the first separator of `x + [sep] + y` is: the first one of
      `x`, or else the one added. */
  lemma SeparatorOfAppend(x: string, y: string, sep: char)
    ensures IndexOf(x + [sep] + y, sep) == IndexOf(x, sep)
  {
    IndexOfConcat(x, [sep], sep);
    IndexOfConcat(x + [sep], y, sep);
  }

  /** `x` has a separator: the first piece is cut from `x`. */
  lemma SplitAppendFound(x: string, y: string, sep: char)
    requires IndexOf(x, sep) < |x|
    ensures var i := IndexOf(x, sep);
      Split(x + [sep] + y, sep) == [x[..i]] + Split(x[i + 1..] + [sep] + y, sep)
  {
    var i := IndexOf(x, sep);
    var s := x + [sep] + y;
    SeparatorOfAppend(x, y, sep);
    SplitUnfold(s, sep);
    SliceConcat(x + [sep], y, i);
    SliceConcat(x, [sep], i);
    SliceConcat(x + [sep], y, i + 1);
    SliceConcat(x, [sep], i + 1);
  }

  /** `x` has no separator: it is the first piece whole. */
  lemma SplitAppendNone(x: string, y: string, sep: char)
    requires IndexOf(x, sep) == |x|
    ensures Split(x + [sep] + y, sep) == [x] + Split(y, sep)
  {
    var s := x + [sep] + y;
    SeparatorOfAppend(x, y, sep);
    SplitUnfold(s, sep);
    assert s[..|x|] == x;
    assert s[|x| + 1..] == y;
  }

  /** Splitting two texts joined by `sep` splits each of them. */
  lemma {:induction false} SplitAppend(x: string, y: string, sep: char)
    ensures Split(x + [sep] + y, sep) == Split(x, sep) + Split(y, sep)
    decreases |x|
  {
    var i := IndexOf(x, sep);
    SplitUnfold(x, sep);
    if i < |x| {
      SplitAppendFound(x, y, sep);
      SplitAppend(x[i + 1..], y, sep);
      ConsAssoc(x[..i], Split(x[i + 1..], sep), Split(y, sep));
    } else {
      SplitAppendNone(x, y, sep);
    }
  }

  // ---------------------------------------------------------------------
  // The language.

  /** The language picked from the browser's language tag: the part before
      the first '-' when the site supports it, English otherwise. */
  function DetectLanguage(browserLang: string): (lang: string)
    ensures lang in SupportedLanguages
    ensures var prefix := browserLang[..IndexOf(browserLang, '-')];
            lang == if prefix in SupportedLanguages then prefix else FallbackLanguage
  {
    var langCode := Split(browserLang, '-')[0];
    if langCode in SupportedLanguages then langCode else FallbackLanguage
  }

  /** The language at start-up: the stored choice unless there is none or
      it is the empty string, otherwise the detected one. */
  function InitialLanguage(stored: Option<string>, browserLang: string): (lang: string)
    ensures stored.Some? && stored.value != "" ==> lang == stored.value
    ensures (stored.None? || stored.value == "") ==> lang == DetectLanguage(browserLang)
    ensures (stored.None? || stored.value == "") ==> lang in SupportedLanguages
  {
    if stored.Some? && stored.value != "" then stored.value else DetectLanguage(browserLang)
  }

  /** The languages offered to the user. */
  function GetSupportedLanguages(): (langs: seq<string>)
    ensures |langs| == 2 && langs[0] == FallbackLanguage && langs[1] == "ja"
    ensures forall browserLang :: DetectLanguage(browserLang) in langs
  {
    SupportedLanguages
  }

  // ---------------------------------------------------------------------
  // Looking a key up.

  /** Follow the segments `keys` down from `v` (absent when `None`): each
      step needs an object holding the segment. `None` as soon as one step
      fails. */
  function Walk(v: Option<Json>, keys: seq<string>): (r: Option<Json>)
    ensures keys == [] ==> r == v
    ensures v.None? ==> r.None?
    decreases |keys|
  {
    if keys == [] then v
    else if v.Some? && v.value.Obj? && keys[0] in v.value.fields then Walk(Some(v.value.fields[keys[0]]), keys[1..])
    else None
  }

  /** Walking a path is walking its first part, then the rest. */
  lemma {:induction false} WalkAppend(v: Option<Json>, a: seq<string>, b: seq<string>)
    ensures Walk(v, a + b) == Walk(Walk(v, a), b)
    decreases |a|
  {
    if a != [] {
      assert (a + b)[0] == a[0] && (a + b)[1..] == a[1..] + b;
      if v.Some? && v.value.Obj? && a[0] in v.value.fields {
        WalkAppend(Some(v.value.fields[a[0]]), a[1..], b);
      }
    } else {
      assert a + b == b;
    }
  }

  /** The table loaded for `lang`, if any. */
  function Table(translations: map<string, Json>, lang: string): Option<Json> {
    if lang in translations then Some(translations[lang]) else None
  }

  /** The translation of the dotted `key` in the current language: looked
      up in the current language's table and, as soon as a segment is
      missing there, looked up afresh in the English table. A key found in
      neither, or naming something other than a string, translates to
      itself; a string has its placeholders filled from `params`. */
  function Translate(translations: map<string, Json>, current: string, key: string,
                     params: map<string, string>): (text: string)
    ensures var keys := Split(key, '.');
            var found := Walk(Table(translations, current), keys);
            var fallback := Walk(Table(translations, FallbackLanguage), keys);
            && (found.Some? && found.value.Str? ==> text == Interpolate(found.value.text, params))
            && (found.Some? && !found.value.Str? ==> text == key)
            && (found.None? && fallback.Some? && fallback.value.Str?
                ==> text == Interpolate(fallback.value.text, params))
            && (found.None? && (fallback.None? || !fallback.value.Str?) ==> text == key)
  {
    var keys := Split(key, '.');
    var value :=
      match Walk(Table(translations, current), keys)
      case Some(v) => Some(v)
      case None => Walk(Table(translations, FallbackLanguage), keys);
    if value.Some? && value.value.Str? then Interpolate(value.value.text, params) else key
  }

  /** A dotted key `p.q` is resolved by resolving `p` and then `q` from
      where that led. */
  lemma DottedKey(v: Option<Json>, p: string, q: string)
    ensures Walk(v, Split(p + "." + q, '.')) == Walk(Walk(v, Split(p, '.')), Split(q, '.'))
  {
    assert p + "." + q == p + ['.'] + q;
    SplitAppend(p, q, '.');
    WalkAppend(v, Split(p, '.'), Split(q, '.'));
  }

  /** The English table plays no part when the current language has the
      key. */
  lemma FallbackIrrelevant(translations: map<string, Json>, current: string, key: string,
                           params: map<string, string>, english: Json)
    requires Walk(Table(translations, current), Split(key, '.')).Some?
    requires current != FallbackLanguage
    ensures Translate(translations, current, key, params)
         == Translate(translations[FallbackLanguage := english], current, key, params)
  {
    assert Table(translations, current) == Table(translations[FallbackLanguage := english], current);
  }

  /** A single-segment key naming a string straight in the current table
      translates to that string, filled in. */
  lemma TopLevelKey(translations: map<string, Json>, current: string, key: string,
                    params: map<string, string>, fields: map<string, Json>)
    requires '.' !in key
    requires current in translations && translations[current] == Obj(fields)
    requires key in fields && fields[key].Str?
    ensures Translate(translations, current, key, params) == Interpolate(fields[key].text, params)
  {
    SplitWithoutSeparator(key, '.');
    assert Walk(Some(Obj(fields)), [key]) == Walk(Some(fields[key]), []);
  }

  // ---------------------------------------------------------------------
  // Placeholders: `{{name}}` with `name` one or more word characters
  // (ASCII letters, digits and '_'), found left to right without overlap.

  predicate IsWordChar(c: char) {
    'a' <= c <= 'z' || 'A' <= c <= 'Z' || '0' <= c <= '9' || c == '_'
  }

  /** The number of word characters in a row from `i`. */
  function WordRun(s: string, i: nat): (n: nat)
    requires i <= |s|
    ensures i + n <= |s|
    ensures forall j :: i <= j < i + n ==> IsWordChar(s[j])
    ensures i + n == |s| || !IsWordChar(s[i + n])
    decreases |s| - i
  {
    if i < |s| && IsWordChar(s[i]) then 1 + WordRun(s, i + 1) else 0
  }

  /** A placeholder found at `i`: its name and where it ends. */
  datatype Placeholder = Placeholder(name: string, end: nat)

  /** The placeholder starting at `i`, if one does: "{{", a run of word
      characters that is not empty, "}}". */
  function PlaceholderAt(s: string, i: nat): (ph: Option<Placeholder>)
    requires i <= |s|
    ensures ph.Some? ==> i + 5 <= ph.value.end <= |s|
  {
    if i + 2 <= |s| && s[i] == '{' && s[i + 1] == '{' then
      var n := WordRun(s, i + 2);
      var close := i + 2 + n;
      if n >= 1 && close + 2 <= |s| && s[close] == '}' && s[close + 1] == '}' then
        Some(Placeholder(s[i + 2..close], close + 2))
      else None
    else None
  }

  /** What a found placeholder looks like: `{{`, a name of one or more
      word characters, `}}`. */
  lemma PlaceholderShape(s: string, i: nat)
    requires i <= |s| && PlaceholderAt(s, i).Some?
    ensures var ph := PlaceholderAt(s, i).value;
      && s[i..ph.end] == "{{" + ph.name + "}}"
      && |ph.name| >= 1
      && forall j :: 0 <= j < |ph.name| ==> IsWordChar(ph.name[j])
  {
    var close := i + 2 + WordRun(s, i + 2);
    assert s[i..i + 2] == "{{" && s[close..close + 2] == "}}";
    assert s[i..close + 2] == s[i..i + 2] + s[i + 2..close] + s[close..close + 2];
  }

  /** `s` from `i` on with every placeholder whose name `params` defines
      replaced by its value; other placeholders and all other text stay as
      they are. Replacement values are not searched again. */
  function InterpolateFrom(s: string, i: nat, params: map<string, string>): string
    requires i <= |s|
    decreases |s| - i
  {
    if i == |s| then ""
    else
      match PlaceholderAt(s, i)
      case Some(ph) =>
        (if ph.name in params then params[ph.name] else s[i..ph.end]) + InterpolateFrom(s, ph.end, params)
      case None => [s[i]] + InterpolateFrom(s, i + 1, params)
  }

  function Interpolate(text: string, params: map<string, string>): string {
    InterpolateFrom(text, 0, params)
  }

  /** Text with no placeholder from `i` on comes back unchanged. */
  lemma {:induction false} NoPlaceholderUnchanged(s: string, i: nat, params: map<string, string>)
    requires i <= |s|
    requires forall j :: i <= j <= |s| ==> PlaceholderAt(s, j).None?
    ensures InterpolateFrom(s, i, params) == s[i..]
    decreases |s| - i
  {
    if i < |s| {
      NoPlaceholderUnchanged(s, i + 1, params);
      assert s[i..] == [s[i]] + s[i + 1..];
    }
  }

  /** The placeholder at `j`, if any, names no parameter. */
  predicate Undefined(s: string, j: nat, params: map<string, string>) {
    j <= |s| && PlaceholderAt(s, j).Some? ==> PlaceholderAt(s, j).value.name !in params
  }

  /** A placeholder whose name has no parameter is copied whole. */
  lemma KeepPlaceholder(s: string, i: nat, params: map<string, string>)
    requires i < |s| && PlaceholderAt(s, i).Some? && PlaceholderAt(s, i).value.name !in params
    ensures var e := PlaceholderAt(s, i).value.end;
      InterpolateFrom(s, i, params) == s[i..e] + InterpolateFrom(s, e, params)
  {
  }

  /** A character where no placeholder starts is copied. */
  lemma CopyChar(s: string, i: nat, params: map<string, string>)
    requires i < |s| && PlaceholderAt(s, i).None?
    ensures InterpolateFrom(s, i, params) == [s[i]] + InterpolateFrom(s, i + 1, params)
  {
  }

  /** Placeholders whose names are not defined stay as they are, so with
      no parameters the text comes back unchanged. */
  lemma {:induction false} UndefinedKept(s: string, i: nat, params: map<string, string>)
    requires i <= |s|
    requires forall j :: i <= j <= |s| ==> Undefined(s, j, params)
    ensures InterpolateFrom(s, i, params) == s[i..]
    decreases |s| - i
  {
    if i < |s| {
      var ph := PlaceholderAt(s, i);
      if ph.Some? {
        var e := ph.value.end;
        assert Undefined(s, i, params);
        KeepPlaceholder(s, i, params);
        UndefinedKept(s, e, params);
        SliceJoin(s, i, e);
      } else {
        CopyChar(s, i, params);
        UndefinedKept(s, i + 1, params);
        SliceJoin(s, i, i + 1);
        assert s[i..i + 1] == [s[i]];
      }
    }
  }

  lemma NoParamsUnchanged(s: string)
    ensures Interpolate(s, map[]) == s
  {
    UndefinedKept(s, 0, map[]);
  }

  /** A text that is exactly one placeholder with a defined name becomes
      that parameter's value, taken as it is: a value that itself looks
      like a placeholder is not filled in again. */
  lemma WholePlaceholder(name: string, params: map<string, string>)
    requires |name| >= 1 && forall j :: 0 <= j < |name| ==> IsWordChar(name[j])
    requires name in params
    ensures Interpolate("{{" + name + "}}", params) == params[name]
  {
    var s := "{{" + name + "}}";
    var n := WordRun(s, 2);
    assert n == |name| by {
      assert forall j :: 2 <= j < 2 + |name| ==> IsWordChar(s[j]);
      WordRunAtLeast(s, 2, |name|);
      assert !IsWordChar(s[2 + |name|]);
    }
    assert s[2..2 + n] == name;
    assert InterpolateFrom(s, |s|, params) == "";
  }

  /** A run of `k` word characters from `i` is part of the word run. */
  lemma {:induction false} WordRunAtLeast(s: string, i: nat, k: nat)
    requires i + k <= |s|
    requires forall j :: i <= j < i + k ==> IsWordChar(s[j])
    ensures WordRun(s, i) >= k
    decreases k
  {
    if k > 0 {
      WordRunAtLeast(s, i + 1, k - 1);
    }
  }
}
