// The `t(key, params)` function of hooks/useTranslation.ts.
//
// The translation tables (data/translations) and the current language (from
// the language context) are parameters. A table maps keys to strings; JS
// treats a missing entry and an empty string alike (`||`). Reading a key of
// a table that is not there throws a `TypeError` in JS; that outcome is
// `None` here.

module Translation {
  import opened Wrappers
  import opened Strings

  type Table = map<string, string>

  /** `translations`: one table per language code. */
  type Tables = map<string, Table>

  /** `table[key]` is a non-empty string, so `||` keeps it. */
  predicate Has(table: Table, key: string)
  {
    key in table && table[key] != ""
  }

  /** `translations[language] || translations.en`: the table of the language, else English's. */
  function LanguageTable(tables: Tables, language: string): (r: Option<Table>)
    ensures r.None? <==> language !in tables && "en" !in tables
    ensures language in tables ==> r == Some(tables[language])
    ensures language !in tables && "en" in tables ==> r == Some(tables["en"])
  {
    if language in tables then Some(tables[language])
    else if "en" in tables then Some(tables["en"])
    else None
  }

  /**
   * `langTranslations[key] || translations.en[key] || key`, or `None` where
   * JS reads a key of an undefined table.
   */
  function Lookup(tables: Tables, language: string, key: string): (r: Option<string>)
    ensures r.None? <==> "en" !in tables && !(language in tables && Has(tables[language], key))
    ensures r.Some? && r.value == "" ==> key == ""
  {
    match LanguageTable(tables, language)
    case None => None
    case Some(table) =>
      if Has(table, key) then Some(table[key])
      else if "en" !in tables then None
      else if Has(tables["en"], key) then Some(tables["en"][key])
      else Some(key)
  }

  /** A language with its own non-empty entry uses it. */
  lemma LookupOwn(tables: Tables, language: string, key: string)
    requires language in tables && Has(tables[language], key)
    ensures Lookup(tables, language, key) == Some(tables[language][key])
  {
  }

  /** A language without a table reads as English. */
  lemma LookupUnknownLanguage(tables: Tables, language: string, key: string)
    requires language !in tables && "en" in tables
    ensures Lookup(tables, language, key) == Lookup(tables, "en", key)
  {
  }

  /** A missing or empty entry falls back to the English one. */
  lemma LookupEnglish(tables: Tables, language: string, key: string)
    requires "en" in tables && Has(tables["en"], key)
    requires language in tables ==> !Has(tables[language], key)
    ensures Lookup(tables, language, key) == Some(tables["en"][key])
  {
  }

  /** A key with no non-empty entry anywhere is its own translation. */
  lemma LookupKey(tables: Tables, language: string, key: string)
    requires "en" in tables && !Has(tables["en"], key)
    requires language in tables ==> !Has(tables[language], key)
    ensures Lookup(tables, language, key) == Some(key)
  {
  }

  // ---------------------------------------------------------------------------
  // `String.prototype.replace` with a string pattern

  /**
   * The replacement text for one match (GetSubstitution of ECMAScript with
   * no capture groups): `$$` is `$`, `$&` the match, `` $` `` the text before
   * it, `$'` the text after it; any other `$` stands for itself.
   */
  function Expand(v: string, matched: string, before: string, after: string): (r: string)
    ensures '$' !in v ==> r == v
    decreases |v|
  {
    if v == [] then []
    else if v[0] == '$' && |v| >= 2 && v[1] == '$' then "$" + Expand(v[2..], matched, before, after)
    else if v[0] == '$' && |v| >= 2 && v[1] == '&' then matched + Expand(v[2..], matched, before, after)
    else if v[0] == '$' && |v| >= 2 && v[1] == '`' then before + Expand(v[2..], matched, before, after)
    else if v[0] == '$' && |v| >= 2 && v[1] == '\'' then after + Expand(v[2..], matched, before, after)
    else
      assert '$' !in v ==> '$' !in v[1..];
      [v[0]] + Expand(v[1..], matched, before, after)
  }

  /** `s.replace(pat, v)`: only the first occurrence of `pat` is replaced. */
  function ReplaceFirst(s: string, pat: string, v: string): (r: string)
    ensures !Contains(s, pat) ==> r == s
  {
    match IndexOf(s, pat)
    case None => s
    case Some(i) => s[..i] + Expand(v, pat, s[..i], s[i + |pat|..]) + s[i + |pat|..]
  }

  /**
   * With the first occurrence of `pat` at `i`, the text before it and
   * everything after it, later occurrences included, are kept.
   */
  lemma ReplaceFirstAt(s: string, pat: string, v: string, i: nat)
    requires IndexOf(s, pat) == Some(i)
    ensures ReplaceFirst(s, pat, v) == s[..i] + Expand(v, pat, s[..i], s[i + |pat|..]) + s[i + |pat|..]
  {
  }

  // ---------------------------------------------------------------------------
  // Placeholder substitution

  /** The text `{name}` that a parameter called `name` replaces. */
  function Placeholder(name: string): (p: string)
    ensures |p| == |name| + 2 && p[0] == '{' && p[|p| - 1] == '}'
    ensures p[1..|p| - 1] == name
  {
    "{" + name + "}"
  }

  /** The parameters applied one after another, in entry order. */
  function Substitute(s: string, params: seq<(string, string)>): string
    decreases |params|
  {
    if params == [] then s
    else Substitute(ReplaceFirst(s, Placeholder(params[0].0), params[0].1), params[1..])
  }

  /** Applying one more parameter acts on the text the earlier ones produced. */
  lemma {:induction false} SubstituteSnoc(s: string, params: seq<(string, string)>, p: (string, string))
    ensures Substitute(s, params + [p]) == ReplaceFirst(Substitute(s, params), Placeholder(p.0), p.1)
    decreases |params|
  {
    if params == [] {
      assert [] + [p] == [p];
    } else {
      assert (params + [p])[1..] == params[1..] + [p];
      SubstituteSnoc(ReplaceFirst(s, Placeholder(params[0].0), params[0].1), params[1..], p);
    }
  }

  /** A placeholder after a text with no `{` is the first occurrence. */
  lemma PlaceholderAfter(a: string, name: string, b: string, v: string)
    requires '{' !in a
    ensures var p := Placeholder(name);
      ReplaceFirst(a + p + b, p, v) == a + Expand(v, p, a, b) + b
  {
    var p := Placeholder(name);
    var s := a + p + b;
    assert s[|a|..|a| + |p|] == p;
    forall k | 0 <= k < |a|
      ensures !StartsWith(s[k..], p)
    {
      assert s[k] == a[k];
      NotStartsAt(s, p, k);
    }
    IndexOfAt(s, p, |a|);
    ReplaceFirstAt(s, p, v, |a|);
    assert s[..|a|] == a && s[|a| + |p|..] == b;
  }

  /** A text with no `{` is left alone by every parameter. */
  lemma {:induction false} SubstituteNoBrace(s: string, params: seq<(string, string)>)
    requires '{' !in s
    ensures Substitute(s, params) == s
    decreases |params|
  {
    if params != [] {
      var pat := Placeholder(params[0].0);
      forall k | 0 <= k <= |s|
        ensures !StartsWith(s[k..], pat)
      {
        if k < |s| {
          NotStartsAt(s, pat, k);
        }
      }
      SubstituteNoBrace(s, params[1..]);
    }
  }

  /**
   * `t(key, params)`: the looked-up text with the parameters substituted in
   * entry order, each replacing the first occurrence of its placeholder.
   */
  method Translate(tables: Tables, language: string, key: string, params: seq<(string, string)>)
    returns (r: Option<string>)
    ensures r.None? <==> Lookup(tables, language, key).None?
    ensures r.Some? ==> r.value == Substitute(Lookup(tables, language, key).value, params)
  {
    var found := Lookup(tables, language, key);
    if found.None? {
      return None;
    }
    var translation := found.value;
    var i := 0;
    while i < |params|
      invariant 0 <= i <= |params|
      invariant translation == Substitute(found.value, params[..i])
    {
      SubstituteSnoc(found.value, params[..i], params[i]);
      assert params[..i + 1] == params[..i] + [params[i]];
      translation := ReplaceFirst(translation, Placeholder(params[i].0), params[i].1);
      i := i + 1;
    }
    assert params[..i] == params;
    r := Some(translation);
  }

  /** Without parameters `t` returns the looked-up text itself. */
  lemma NoParams(tables: Tables, language: string, key: string)
    requires Lookup(tables, language, key).Some?
    ensures Substitute(Lookup(tables, language, key).value, []) == Lookup(tables, language, key).value
  {
  }

  /** A parameter fills only the first `{name}`; a later one, in `b`, stays. */
  lemma FirstOccurrenceOnly(a: string, name: string, v: string, b: string)
    requires '{' !in a && '$' !in v
    ensures Substitute(a + Placeholder(name) + b, [(name, v)]) == a + v + b
  {
    PlaceholderAfter(a, name, b, v);
  }

  /** A later parameter fills a placeholder that an earlier one inserted. */
  lemma LaterSeesEarlier(x: string, y: string, v: string)
    requires '$' !in y && '$' !in v
    ensures Substitute(Placeholder(x), [(x, Placeholder(y)), (y, v)]) == v
  {
    var px, py := Placeholder(x), Placeholder(y);
    PlaceholderAfter("", x, "", py);
    assert "" + px + "" == px;
    assert '$' !in py;
    assert ReplaceFirst(px, px, py) == py;
    PlaceholderAfter("", y, "", v);
    assert "" + py + "" == py;
    assert ReplaceFirst(py, py, v) == v;
    var ps := [(x, py), (y, v)];
    assert ps[1..] == [(y, v)];
    assert [(y, v)][1..] == [];
    assert Substitute(py, [(y, v)]) == v;
  }

  /** `$&` in a value repeats the placeholder and `$$` writes one `$`, as JS's replace does. */
  lemma DollarPatterns(a: string, name: string, b: string)
    requires '{' !in a
    ensures ReplaceFirst(a + Placeholder(name) + b, Placeholder(name), "$&$$") == a + Placeholder(name) + "$" + b
  {
    PlaceholderAfter(a, name, b, "$&$$");
  }
}
