/** Translation lookup (src/utils/lang.js): the language tables are JSON values, already
    loaded; the stored language comes from the store. */
module Lang {
  import opened Wrappers
  import opened Text
  import opened LeaveStore

  /** A JSON value as the language files hold them. */
  datatype Json =
    | JString(s: string)
    | JNumber(n: int)
    | JBool(b: bool)
    | JNull
    | JArray(items: seq<Json>)
    | JObject(members: map<string, Json>)

  /** `lang || db.getLanguage() || 'ar'`: `stored` is what getLanguage returned. */
  function CurrentLanguage(lang: Option<string>, stored: string): (code: string)
    ensures Given(lang) ==> code == lang.value
    ensures !Given(lang) && stored != "" ==> code == stored
    ensures code != ""
  {
    if Given(lang) then lang.value else if stored != "" then stored else DefaultLanguage
  }

  /** `languages[code] || languages['ar']`: a loaded table is an object, hence truthy. */
  function LanguageTable(languages: map<string, Json>, code: string): (table: Option<Json>)
    ensures code in languages ==> table == Some(languages[code])
    ensures code !in languages && DefaultLanguage in languages ==> table == Some(languages[DefaultLanguage])
    ensures code !in languages && DefaultLanguage !in languages ==> table.None?
  {
    if code in languages then Some(languages[code])
    else if DefaultLanguage in languages then Some(languages[DefaultLanguage])
    else None
  }

  /** getLanguageData. */
  function GetLanguageData(languages: map<string, Json>, lang: Option<string>, stored: string): (table: Option<Json>)
    ensures Given(lang) && lang.value in languages ==> table == Some(languages[lang.value])
    ensures table.None? ==> DefaultLanguage !in languages
  {
    LanguageTable(languages, CurrentLanguage(lang, stored))
  }

  /** `value && typeof value === 'object' && k in value ? value[k] : (not found)`: an object
      by its keys, an array by its canonical index strings. */
  function Member(value: Json, k: string): (r: Option<Json>)
    ensures value.JObject? ==> (r.Some? <==> k in value.members)
    ensures value.JObject? && r.Some? ==> r.value == value.members[k]
    ensures !value.JObject? && !value.JArray? ==> r.None?
  {
    match value
    case JObject(m) => if k in m then Some(m[k]) else None
    case JArray(items) =>
      var n := ParseInt(k);
      if n.Some? && 0 <= n.value < |items| && IntToString(n.value) == k then Some(items[n.value]) else None
    case _ => None
  }

  /** The value reached by following `keys` from `root`, None as soon as one is missing. */
  function Walk(root: Option<Json>, keys: seq<string>): Option<Json>
    decreases |keys|
  {
    if keys == [] then root else Walk(Step(root, keys[0]), keys[1..])
  }

  /** One segment further: nothing stays nothing, otherwise the member named `k`. */
  function Step(reached: Option<Json>, k: string): (r: Option<Json>)
    ensures reached.None? ==> r.None?
  {
    if reached.None? then None else Member(reached.value, k)
  }

  /** Walking a path in two parts is walking the first part, then the second from there. */
  lemma {:induction false} WalkAppend(root: Option<Json>, a: seq<string>, b: seq<string>)
    ensures Walk(root, a + b) == Walk(Walk(root, a), b)
    decreases |a|
  {
    if a == [] {
      assert a + b == b;
    } else {
      assert (a + b)[0] == a[0] && (a + b)[1..] == a[1..] + b;
      WalkAppend(Step(root, a[0]), a[1..], b);
    }
  }

  /** Once a key is missing, nothing deeper is found. */
  lemma WalkStopsAtMissing(root: Option<Json>, a: seq<string>, b: seq<string>)
    requires Walk(root, a).None?
    ensures Walk(root, a + b).None?
  {
    WalkAppend(root, a, b);
    WalkFromNothing(b);
  }

  lemma {:induction false} WalkFromNothing(keys: seq<string>)
    ensures Walk(None, keys).None?
    decreases |keys|
  {
    if keys != [] {
      WalkFromNothing(keys[1..]);
    }
  }

  /** Each `{name}` occurrence replaced, one replacement after another in entry order. */
  function Substitute(s: string, replacements: seq<(string, string)>): string
    decreases |replacements|
  {
    if replacements == [] then s
    else
      var (name, value) := replacements[|replacements| - 1];
      ReplaceAll(Substitute(s, replacements[..|replacements| - 1]), "{" + name + "}", value)
  }

  /** A text without '{' has no placeholder and comes back unchanged. */
  lemma {:induction false} NoPlaceholderUnchanged(s: string, replacements: seq<(string, string)>)
    requires '{' !in s
    ensures Substitute(s, replacements) == s
    decreases |replacements|
  {
    if replacements != [] {
      var (name, value) := replacements[|replacements| - 1];
      NoPlaceholderUnchanged(s, replacements[..|replacements| - 1]);
      NotContainedWithoutFirst(s, "{" + name + "}");
      ReplaceAllAbsent(s, "{" + name + "}", value);
    }
  }

  /** A pattern whose first character does not occur is not contained. */
  lemma {:induction false} NotContainedWithoutFirst(s: string, p: string)
    requires |p| > 0 && p[0] !in s
    ensures !Contains(s, p)
    decreases |s|
  {
    if s != [] {
      assert !StartsWith(s, p) by {
        if |p| <= |s| {
          assert s[..|p|][0] == s[0];
        }
      }
      NotContainedWithoutFirst(s[1..], p);
    }
  }

  /** What `t` returns: the key itself when a key is missing or a value on the way is not
      an object; a found text with its placeholders replaced; any other found value as is. */
  function Translation(key: string, found: Option<Json>, replacements: seq<(string, string)>): (r: Json)
    ensures found.None? ==> r == JString(key)
    ensures found.Some? && !found.value.JString? ==> r == found.value
    ensures replacements == [] ==> r == (if found.Some? then found.value else JString(key))
  {
    match found
    case None => JString(key)
    case Some(JString(s)) => JString(Substitute(s, replacements))
    case Some(v) => v
  }

  /** t(key, lang, replacements): resolve the table, walk the dotted key one segment at a
      time, then replace the placeholders one entry at a time. */
  method T(languages: map<string, Json>, stored: string, key: string, lang: Option<string>,
           replacements: seq<(string, string)>)
    returns (r: Json)
    ensures r == Translation(key, Walk(GetLanguageData(languages, lang, stored), Split(key, '.')), replacements)
  {
    var found := WalkKeys(GetLanguageData(languages, lang, stored), Split(key, '.'));
    if found.None? {
      return JString(key);
    }
    if !found.value.JString? {
      return found.value;
    }
    var text := SubstituteAll(found.value.s, replacements);
    r := JString(text);
  }

  /** The key loop of `t`: step into each segment, stopping at the first one missing. */
  method WalkKeys(root: Option<Json>, keys: seq<string>) returns (value: Option<Json>)
    ensures value == Walk(root, keys)
  {
    value := root;
    for i := 0 to |keys|
      invariant Walk(value, keys[i..]) == Walk(root, keys)
    {
      if value.None? {
        WalkFromNothing(keys[i..]);
        return None;
      }
      assert keys[i..][0] == keys[i] && keys[i..][1..] == keys[i + 1..];
      value := Member(value.value, keys[i]);
    }
  }

  /** The replacement loop of `t`: each entry's placeholder replaced in turn. */
  method SubstituteAll(s: string, replacements: seq<(string, string)>) returns (text: string)
    ensures text == Substitute(s, replacements)
  {
    text := s;
    for j := 0 to |replacements|
      invariant text == Substitute(s, replacements[..j])
    {
      assert replacements[..j + 1][..j] == replacements[..j];
      var (name, replacement) := replacements[j];
      text := ReplaceAll(text, "{" + name + "}", replacement);
    }
    assert replacements[..|replacements|] == replacements;
  }

  /** A key without dots is looked up directly in the table. */
  lemma TopLevelKey(table: Option<Json>, key: string)
    requires '.' !in key
    ensures Walk(table, Split(key, '.')) == if table.None? then None else Member(table.value, key)
  {
    assert Split(key, '.') == [key];
    assert [key][1..] == [];
  }
}
