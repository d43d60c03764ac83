/** The small string helpers of the export script: document settings,
    `${hype_id}` substitution and insertion at a pattern match. The regular
    expression search behind the inserts is not modelled: its match span is
    a parameter. */
module ExportScript {
  import opened Results
  import opened Text

  /** `lower()` on one character, ASCII letters only: `A`..`Z` change and
      everything else is kept. */
  function LowerChar(c: char): char
  {
    if 'A' <= c <= 'Z' then (c as int + 32) as char else c
  }

  function UpperChar(c: char): char
  {
    if 'a' <= c <= 'z' then (c as int - 32) as char else c
  }

  /** `s.lower()`. */
  function Lower(s: string): (r: string)
    ensures |r| == |s|
    ensures forall i | 0 <= i < |s| :: r[i] == LowerChar(s[i])
  {
    if s == [] then [] else [LowerChar(s[0])] + Lower(s[1..])
  }

  /** `s.upper()`. */
  function Upper(s: string): (r: string)
    ensures |r| == |s|
    ensures forall i | 0 <= i < |s| :: r[i] == UpperChar(s[i])
  {
    if s == [] then [] else [UpperChar(s[0])] + Upper(s[1..])
  }

  /** The values `enabled_setting` accepts, compared after lowering. */
  predicate IsEnabledWord(w: string) {
    w == "true" || w == "enabled" || w == "on"
  }

  /** `has_setting(key)`: the key is among the document arguments. */
  predicate HasSetting(arguments: map<string, string>, key: string) {
    key in arguments
  }

  /** `has_setting` asks only for the key: a present setting whose value is
      not an enabled word is there, yet not enabled. */
  lemma PresentButNotEnabled(arguments: map<string, string>, key: string, value: string)
    requires !IsEnabledWord(Lower(value))
    ensures HasSetting(arguments[key := value], key)
    ensures !EnabledSetting(arguments[key := value], key)
  {
  }

  /** `enabled_setting(key)`: the key is present and its value, lowered, is
      `true`, `enabled` or `on`. */
  function EnabledSetting(arguments: map<string, string>, key: string): (r: bool)
    ensures r ==> HasSetting(arguments, key)
    ensures key !in arguments ==> !r
    ensures key in arguments ==> (r <==> IsEnabledWord(Lower(arguments[key])))
  {
    if key in arguments then IsEnabledWord(Lower(arguments[key])) else false
  }

  lemma LowerOfLower(s: string)
    ensures Lower(Lower(s)) == Lower(s)
  {
  }

  lemma LowerOfUpper(s: string)
    ensures Lower(Upper(s)) == Lower(s)
  {
  }

  /** The letters the enabled words are written in. */
  const WordLetters: set<char> := {'t', 'r', 'u', 'e', 'n', 'a', 'b', 'l', 'd', 'o'}

  /** Applies a per-character mapping to every character. */
  function MapChars(f: char -> char, s: string): (r: string)
    ensures |r| == |s|
    ensures forall i | 0 <= i < |s| :: r[i] == f(s[i])
  {
    if s == [] then [] else [f(s[0])] + MapChars(f, s[1..])
  }

  /** Every enabled word is spelled in `WordLetters`. */
  lemma {:induction false} EnabledWordLetters(w: string)
    requires IsEnabledWord(w)
    ensures forall i | 0 <= i < |w| :: w[i] in WordLetters
  {
    if w == "true" {
      assert w == ['t', 'r', 'u', 'e'];
    } else if w == "enabled" {
      assert w == ['e', 'n', 'a', 'b', 'l', 'e', 'd'];
    } else {
      assert w == ['o', 'n'];
    }
  }

  /** The document arguments are unicode strings, whose `lower()` also lowers
      letters beyond ASCII. Any per-character lowering that agrees with
      `LowerChar` on ASCII and never turns another character into a letter of
      the enabled words gives the same verdict as `Lower`. Unicode lowering
      is such a mapping: the only characters beyond ASCII that lower into
      ASCII become `i` or `k`. */
  lemma {:induction false} WiderLoweringSameVerdict(s: string, f: char -> char)
    requires forall c: char | c as int < 128 :: f(c) == LowerChar(c)
    requires forall c: char | c as int >= 128 :: f(c) !in WordLetters
    ensures IsEnabledWord(MapChars(f, s)) == IsEnabledWord(Lower(s))
  {
    var wide := MapChars(f, s);
    var narrow := Lower(s);
    if forall i | 0 <= i < |s| :: s[i] as int < 128 {
      assert wide == narrow;
    } else {
      var j :| 0 <= j < |s| && s[j] as int >= 128;
      assert narrow[j] == s[j];
      assert s[j] !in WordLetters;
      assert wide[j] !in WordLetters;
      if IsEnabledWord(wide) {
        EnabledWordLetters(wide);
      }
      if IsEnabledWord(narrow) {
        EnabledWordLetters(narrow);
      }
    }
  }

  /** `enabled_setting` under such a wider lowering answers as the model does. */
  lemma EnabledUnderWiderLowering(arguments: map<string, string>, key: string, f: char -> char)
    requires forall c: char | c as int < 128 :: f(c) == LowerChar(c)
    requires forall c: char | c as int >= 128 :: f(c) !in WordLetters
    ensures (key in arguments && IsEnabledWord(MapChars(f, arguments[key]))) == EnabledSetting(arguments, key)
  {
    if key in arguments {
      WiderLoweringSameVerdict(arguments[key], f);
    }
  }

  /** The setting is case-insensitive: writing the value in upper or lower
      case does not change whether it is enabled. */
  lemma EnabledIgnoresCase(arguments: map<string, string>, key: string)
    requires key in arguments
    ensures EnabledSetting(arguments[key := Lower(arguments[key])], key) == EnabledSetting(arguments, key)
    ensures EnabledSetting(arguments[key := Upper(arguments[key])], key) == EnabledSetting(arguments, key)
  {
    LowerOfLower(arguments[key]);
    LowerOfUpper(arguments[key]);
  }

  /** `TRUE`, `On` and `Enabled` all switch a setting on; `yes` does not. The
      arguments are a parameter fixed by a `requires` so that the solver works
      with the map by name. */
  lemma {:induction false} EnabledExamples(arguments: map<string, string>)
    requires arguments == map["a" := "TRUE", "b" := "On", "c" := "Enabled", "d" := "yes"]
    ensures EnabledSetting(arguments, "a") && EnabledSetting(arguments, "b") && EnabledSetting(arguments, "c")
    ensures !EnabledSetting(arguments, "d") && HasSetting(arguments, "d")
    ensures !EnabledSetting(arguments, "e") && !HasSetting(arguments, "e")
  {
    SettingWord(arguments, "a", "TRUE", "true");
    SettingWord(arguments, "b", "On", "on");
    SettingWord(arguments, "c", "Enabled", "enabled");
    SettingWord(arguments, "d", "yes", "yes");
    assert "e" !in arguments;
  }

  /** A present setting is judged by its lowered value. */
  lemma {:induction false} SettingWord(arguments: map<string, string>, key: string, value: string, lowered: string)
    requires key in arguments && arguments[key] == value
    requires (value == "TRUE" && lowered == "true") || (value == "On" && lowered == "on")
          || (value == "Enabled" && lowered == "enabled") || (value == "yes" && lowered == "yes")
    ensures EnabledSetting(arguments, key) == IsEnabledWord(lowered)
  {
    LoweredWord(value, lowered);
  }

  /** One literal and its lowered form. */
  lemma {:induction false} LoweredWord(s: string, lowered: string)
    requires (s == "TRUE" && lowered == "true") || (s == "On" && lowered == "on")
          || (s == "Enabled" && lowered == "enabled") || (s == "yes" && lowered == "yes")
    ensures Lower(s) == lowered
  {
    assert |Lower(s)| == |lowered|;
    forall i | 0 <= i < |s| ensures Lower(s)[i] == lowered[i] {
    }
  }

  /** The placeholder the export script fills in with the document's id. */
  const HypeIdPlaceholder: string := "${hype_id}"

  /** `replace_custom_vars(js)`: every `${hype_id}` becomes the id. Each
      occurrence trades the placeholder's 10 characters for the id, and an id
      that is the placeholder itself leaves the script as it is. */
  function ReplaceCustomVars(js: string, hypeId: string): (r: string)
    ensures |r| == |js| + CountOccurrences(js, HypeIdPlaceholder) * (|hypeId| - 10)
    ensures hypeId == HypeIdPlaceholder ==> r == js
  {
    assert |HypeIdPlaceholder| == 10;
    ReplaceAllLength(js, HypeIdPlaceholder, hypeId);
    ReplaceAllSelf(js, HypeIdPlaceholder);
    ReplaceAll(js, HypeIdPlaceholder, hypeId)
  }

  /** Script text without the placeholder comes back unchanged. */
  lemma ReplaceCustomVarsAbsent(js: string, hypeId: string)
    requires FindSub(js, HypeIdPlaceholder).None?
    ensures ReplaceCustomVars(js, hypeId) == js
  {
    ReplaceAllAbsent(js, HypeIdPlaceholder, hypeId);
  }

  /** One placeholder between placeholder-free text is replaced by the id. */
  lemma ReplaceCustomVarsOnce(pre: string, post: string, hypeId: string)
    requires '$' !in pre && FindSub(post, HypeIdPlaceholder).None?
    ensures ReplaceCustomVars(pre + HypeIdPlaceholder + post, hypeId) == pre + hypeId + post
  {
    assert HypeIdPlaceholder[0] == '$';
    ReplaceAllOnce(pre, HypeIdPlaceholder, post, hypeId);
  }

  /** Where the export script would fail: `re.search` found nothing and
      `.start()` or `.end()` is called on `None`. */
  datatype ScriptError = NoMatch

  /** The span `re.search` reports: `start()` and `end()`. */
  datatype Span = Span(start: nat, end: nat)

  predicate ValidSpan(m: Span, s: string) {
    m.start <= m.end <= |s|
  }

  /** `s[:p] + insert + s[p:]`. */
  function InsertAt(s: string, p: nat, insert: string): (r: string)
    requires p <= |s|
    ensures |r| == |s| + |insert|
    ensures r[..p] == s[..p] && r[p..p + |insert|] == insert && r[p + |insert|..] == s[p..]
  {
    s[..p] + insert + s[p..]
  }

  /** Cutting the inserted slice out again gives back the original. */
  lemma InsertAtRemoved(s: string, p: nat, insert: string)
    requires p <= |s|
    ensures var r := InsertAt(s, p, insert);
            r[..p] + r[p + |insert|..] == s
  {
    assert s[..p] + s[p..] == s;
  }

  /** `insert_at_end(pattern, s, insert)`: the text goes in front of the match,
      which is the end of whatever the pattern closes (a `</head>`, say). */
  function InsertAtEnd(found: Option<Span>, s: string, insert: string): (r: Result<string, ScriptError>)
    requires found.Some? ==> ValidSpan(found.value, s)
    ensures found.None? <==> r.Err?
    ensures found.Some? ==> r.value == InsertAt(s, found.value.start, insert)
    ensures found.Some? ==>
      var m := found.value;
      r.value[m.start + |insert|..m.end + |insert|] == s[m.start..m.end]
  {
    match found
    case None => Err(NoMatch)
    case Some(m) => Ok(InsertAt(s, m.start, insert))
  }

  /** `insert_at_start(pattern, s, insert)`: the text goes right after the
      match, which is the start of whatever the pattern opens (a `<body>`, say). */
  function InsertAtStart(found: Option<Span>, s: string, insert: string): (r: Result<string, ScriptError>)
    requires found.Some? ==> ValidSpan(found.value, s)
    ensures found.None? <==> r.Err?
    ensures found.Some? ==> r.value == InsertAt(s, found.value.end, insert)
    ensures found.Some? ==>
      var m := found.value;
      r.value[m.start..m.end] == s[m.start..m.end]
  {
    match found
    case None => Err(NoMatch)
    case Some(m) => Ok(InsertAt(s, m.end, insert))
  }
}
