# HypeXAPI in Dafny

HypeXAPI lets a Tumult Hype document send xAPI ("experience API") statements:
actor–verb–object records of a learning event, sent to a Learning Record
Store. This project models the library's statement-resolution engine in
`HypeXAPI.js` and the pure helpers of its Python 2 export script
`HypeXAPI.hype-export.py`, and proves properties of the model.

The JavaScript side has four parts:

- **Key paths.** `resolveKeyToArray` turns `"a.b[2].c"`, or an array of such
  keys, into a flat list of path segments (`KeyPath`).
- **Placeholder resolution.** `resolveFunctionsAndVars` does three things:
  - it forces zero-argument functions;
  - it walks objects and arrays;
  - it rewrites each `${path}` in a string member with the value found by
    walking a variable scope (`Resolver`, with the many-placeholder
    rewrite in `Substitution`).
- **Defaults store.** `setDefault`, `getDefault` and `setDefaultActor`
  read and write the process-wide store, and the default-actor getter reads
  it (`Defaults`).
- **Statement assembly.** `resolveVerb` and `sendStatementByConfig` look up
  each field and apply the verb, object and actor construction rules. They
  send only when actor, verb and object are all present (`Statement`).

The Python side covers `remove_empty_lines` (`ExportLines`), the cache-size
eviction rule (`ExportCache`), and three groups of string helpers
(`ExportScript`):

- the document settings;
- `${hype_id}` substitution;
- the two insert helpers.

JavaScript values are the datatype `JsValue.Value`:

- undefined, null, booleans, integers and strings;
- objects as maps and arrays as sequences;
- a zero-argument function, represented by the value one call returns;
- `DefaultActorGetter`, the store's own getter, which reads `defaultActor`
  when it is called.

Thrown exceptions become `Err(TypeError)`. Examples are a property read on
null or undefined, and a call of a non-function. A chain of getter calls
that never ends becomes `Err(Diverges)`.

Three behaviours of the code are easy to misread. The model follows the
code in each:

- **A top-level string is not substituted.** `resolveFunctionsAndVars`
  only rewrites string members of an object or array. A string passed
  directly is returned as it is (`ResolverExamples.TopLevelStringKept`).
- **A missing dictionary entry falls back to the raw config value.** When
  the object dictionary lacks the key named by `config.object`, the raw key
  string becomes the object. The statement is still sent
  (`StatementExamples.RawObjectKeySent`); it is not rejected as incomplete.
- **The object-construction block writes to the verb.** The block at
  `HypeXAPI.js:237-253` assigns the built activity to the verb variable, so
  it never supplies a missing object (`Statement.FalsyObjectNeverSent`).
- **Mailbox hashing reads the wrong flag.** Hashing is switched by
  `agent-hash-mbox`, and the dataset key `agent-hash` has no effect
  (`Statement.AgentHashIgnored`).

One behaviour is not kept:

- **Dictionary entries are mutated in place.** The source rewrites
  dictionary entries where they are stored. The model returns a new tree
  instead. For entries with no functions and no placeholders this makes no
  difference, because resolution leaves them unchanged
  (`Resolver.ResolvePlainIdempotent`).

## Model

| member | source | states |
|---|---|---|
| KeyPath.ParseKeyString | HypeXAPI.js:121-125 | the parse of a string key is never empty and no segment contains `.`; joining the segments with `.` gives back the key after `[digits]` groups became `.n` and one leading `.` was dropped |
| KeyPath.ResolveKeyToArray | HypeXAPI.js:116-126 | a string key gives its parsed segments; an array key gives an array; any other key gives undefined |
| KeyPath.ArrayKeyConcatenates | HypeXAPI.js:117-119 | an array key parses to the in-order concatenation of its elements' parses (strings parsed, nested arrays flattened, every other element becomes a single undefined segment) |
| KeyPath.ConcatParsesIsFlat | HypeXAPI.js:117-119 | the `reduce`/`concat` accumulation equals the accumulator followed by the flat reference concatenation |
| KeyPath.TwoStringKeys | HypeXAPI.js:117-119 | `[a, b]` parses to the parse of `a` followed by the parse of `b` |
| KeyPath.NoBracketsUnchanged | HypeXAPI.js:121-123 | a key without `[` is untouched by the bracket normalisation |
| KeyPath.NoBracketsPrefix | HypeXAPI.js:121-123 | text without `[` passes through the bracket normalisation unchanged in front of whatever follows |
| KeyPath.BracketGroup | HypeXAPI.js:121-123 | `[digits]` at the front becomes `.` followed by the digits' value in canonical decimal |
| KeyPath.NormalizeBrackets | HypeXAPI.js:121-123 | a key lacking `[` or `]` has no bracket group and passes through unchanged |
| KeyPath.DropLeadingDot | HypeXAPI.js:124 | a key starting with `.` loses exactly that one character; any other key, the empty one included, is kept as it is |
| KeyPath.DigitRunOfDigits | HypeXAPI.js:121 | the `\d+` run of a digit string followed by a non-digit is exactly that digit string |
| KeyPath.PlainName | HypeXAPI.js:121-125 | a name with no `.` and no `[` parses to itself alone |
| KeyPath.ParseOfParts | HypeXAPI.js:121-125 | a key whose normalised form is a join of dot-free parts with a non-empty first part parses to exactly those parts |
| KeyPath.NormalizeOneGroup | HypeXAPI.js:121-123 | one `[digits]` group between bracket-free text becomes a dot and the number the digits denote, everything around it kept |
| KeyPath.ParseWithIndex | HypeXAPI.js:121-125 | `a.b[d].c` with a canonical index `d` parses to the four names `a`, `b`, `d`, `c` |
| KeyPath.ParseTrailingIndex | HypeXAPI.js:121-125 | a name followed by one `[digits]` parses to the name and the decimal value of the digits, so leading zeros are dropped |
| KeyPath.ParseExampleDotted | HypeXAPI.js:121-125 | `a.b[2].c` parses to `["a","b","2","c"]` |
| KeyPath.ParseExampleLeadingZeros | HypeXAPI.js:121-125 | `x[007]` parses to `["x","7"]` |
| KeyPath.ParseExampleDots | HypeXAPI.js:124-125 | only one leading dot is removed: `.a` gives `["a"]`, `..a` gives `["","a"]`, and the empty key gives `[""]` |
| JsValue.Get | HypeXAPI.js:150 | a property read throws exactly on null and undefined; an object yields the value stored under a key it has and undefined for a key it lacks; an array's `length` is its element count |
| JsValue.GetArrayAtIndex | HypeXAPI.js:121-123 | reading an array at the decimal form of an index yields that element, so a normalised `[n]` lands on slot n |
| JsValue.LeadingZeroIsNotIndex | HypeXAPI.js:150 | a digit string with a leading zero is not an array index and reads as undefined |
| JsValue.StringOf | HypeXAPI.js:156 | the string form of a non-negative number reads back as that array index; a negative number renders as `-` followed by the canonical numeral of its magnitude |
| Defaults.SetDefault | HypeXAPI.js:353-362 | an object-typed key replaces the whole store; otherwise one property is written, and the write throws exactly when the store is null or undefined |
| Defaults.InitialStore | HypeXAPI.js:31-98 | in the store the library starts with, forcing the default-actor getter yields the empty actor, `debug` reads false and each of the five dictionaries reads as an empty object |
| Defaults.GetDefault | HypeXAPI.js:370-376 | a falsy key returns the whole store; a truthy key the store has yields the value stored under it; a key the store lacks reads as undefined |
| Defaults.GetAfterSet | HypeXAPI.js:353-376 | after `setDefault(k, v)` with a truthy non-object key, `getDefault(k)` returns `v` |
| Defaults.SetLeavesOtherKeys | HypeXAPI.js:353-376 | `setDefault(k, v)` leaves every other key's value unchanged |
| Defaults.ObjectKeyReplacesStore | HypeXAPI.js:355-358 | an object passed as key becomes the store, and later reads see its contents |
| Defaults.SetDefaultActor | HypeXAPI.js:343-345 | setting the default actor fails only on a null or undefined store; afterwards the library's getter returns the new actor, and the getter entry itself is unchanged |
| Defaults.GetterSeesNewDefaultActor | HypeXAPI.js:33-35 | the default-actor getter reads the store when it is called, so it returns the actor set last |
| Defaults.Call | HypeXAPI.js:139-140 | calling a function yields its result; calling anything else throws |
| Defaults.Force | HypeXAPI.js:133 | forcing never yields a function, and a non-function is returned unchanged |
| Defaults.ForceNestedThunks | HypeXAPI.js:133 | any depth of functions, each returning the next, is forced down to the final non-function |
| Defaults.GetterReturningItselfDiverges | HypeXAPI.js:33-35 | if the default actor is a function returning the getter, forcing the getter never ends and is reported as divergence |
| Resolver.CloseIndex | HypeXAPI.js:142 | the lazy `.*?` stops at the first `}` or line terminator after `${` |
| Resolver.Matches | HypeXAPI.js:142 | every global match is `${`, a body free of `}` and line terminators, then `}` |
| Resolver.MatchesSkipsPlainPrefix | HypeXAPI.js:142 | text without `$` contributes no match |
| Resolver.MatchesPlaceholderFirst | HypeXAPI.js:142 | a placeholder at the front is matched whole and matching resumes after it |
| Resolver.OnePlaceholder | HypeXAPI.js:142 | a text with one placeholder between `$`-free parts has exactly that match |
| Resolver.NoOpenerNoMatches | HypeXAPI.js:142-143 | text that never has `$` followed by `{` has no matches |
| Resolver.CloseIndexAfterBody | HypeXAPI.js:142 | in `${body}…` with a body free of `}` and line terminators, the closing index is right after the body |
| Resolver.StripDecorations | HypeXAPI.js:145 | stripping `${`, `}` and `()` never lengthens the text |
| Resolver.StripPlaceholder | HypeXAPI.js:145 | `${name}` and `${name()}` both strip to `name` |
| Resolver.StripKeepsName | HypeXAPI.js:145 | a name free of `$`, `}` and `(` survives the stripping unchanged |
| Resolver.Walk | HypeXAPI.js:147-155 | an undefined scope or an empty path ends the walk with the current value; a failing walk fails only with a TypeError |
| Resolver.MissingNameIsUndefined | HypeXAPI.js:147-155 | a path whose first name the scope object lacks reads as undefined |
| Resolver.WalkAppend | HypeXAPI.js:147-155 | walking `p` followed by `q` is walking `p` and then walking `q` from where `p` ended; a failure on `p` is the failure of the whole |
| Resolver.WalkCallsFunction | HypeXAPI.js:150-152 | a function met on the way is called and the walk goes on from its result |
| Resolver.WalkFollowsLookup | HypeXAPI.js:147-155 | where a plain nested lookup of the path exists (each name present, no function on the way), the walk yields exactly that value |
| Resolver.ExpandDollars | HypeXAPI.js:156 | a replacement text without `$` has no special pattern and is inserted literally |
| Resolver.ReplaceFirst | HypeXAPI.js:156 | with no occurrence the text is unchanged; a function replacer's result replaces only the first occurrence, as it stands |
| Resolver.FindAfterPrefix | HypeXAPI.js:156 | a pattern whose first character does not occur before it is first found right after that prefix |
| Resolver.SubstituteOne | HypeXAPI.js:144-156 | a failing walk fails the step, every failure is a TypeError, and a text without the placeholder is left unchanged |
| Resolver.SubstituteOneReplacesFirst | HypeXAPI.js:144-156 | for a `$`-free non-function value, the first occurrence of the placeholder becomes the value's string form and the rest of the text is kept |
| Resolver.ReplaceFirstPlainLiteral | HypeXAPI.js:156 | replacing a match by a string without `$` puts that string verbatim in place of the first occurrence |
| Resolver.SubstituteAll | HypeXAPI.js:143-157 | with no matches the string is unchanged; failures are TypeErrors |
| Resolver.Substitute | HypeXAPI.js:142-157 | a string without placeholders is unchanged |
| Resolver.SubstituteSingle | HypeXAPI.js:142-157 | a string with a single match is rewritten by exactly that one substitution step |
| Substitution.MatchesSpliced | HypeXAPI.js:142 | `$`-free texts interleaved with `${name}` placeholders match exactly those placeholders, in order |
| Substitution.StepReplaces | HypeXAPI.js:144-156 | one step turns the first `${name}` after a `$`-free prefix into the walked value's string form and keeps the rest |
| Substitution.SubstituteAllSpliced | HypeXAPI.js:143-157 | substituting the interleaved placeholders in turn replaces each by its own value's string form |
| Substitution.SubstituteSpliced | HypeXAPI.js:142-157 | any number of placeholders between `$`-free texts are each replaced by the string form of the value their path walks to |
| Substitution.TwoPlaceholders | HypeXAPI.js:142-157 | `p0${n0}p1${n1}p2` becomes `p0`, the first value's text, `p1`, the second value's text, `p2` |
| Resolver.ResolveMember | HypeXAPI.js:137-156 | a member function is called once and replaced by its result; objects stay objects; strings stay strings; undefined, booleans and numbers are untouched |
| Resolver.ResolveTree | HypeXAPI.js:134-160 | resolving an object keeps its key set; resolving an array keeps its length; null has no members |
| Resolver.ResolveElems | HypeXAPI.js:136-160 | every array slot is the resolution of the slot it replaces, and the length is kept |
| Resolver.Resolve | HypeXAPI.js:132-163 | the result is never a function, and a non-object non-function value comes back unchanged |
| Resolver.ResolvedObjectMembers | HypeXAPI.js:136-160 | each member of a resolved object is that member's own resolution; a function member becomes its result; other scalars stay |
| Resolver.MemberFailureFails | HypeXAPI.js:136-160 | if resolving any member throws, resolving the object throws |
| Resolver.PlainMemberUnchanged | HypeXAPI.js:136-160 | a member with no functions and no placeholders is unchanged |
| Resolver.PlainTreeUnchanged | HypeXAPI.js:134-160 | an object or array with no functions and no placeholders is unchanged |
| Resolver.PlainElemsUnchanged | HypeXAPI.js:136-160 | array slots with no functions and no placeholders are unchanged |
| Resolver.ResolvePlainIdempotent | HypeXAPI.js:132-163 | a tree with no functions and no placeholders resolves to itself, so resolving twice equals resolving once |
| Resolver.ResolveForcesTopLevel | HypeXAPI.js:133 | a top-level chain of functions is forced before anything else, whatever its depth |
| Resolver.SingleMemberObject | HypeXAPI.js:136-160 | an object with one member resolves as that member does |
| Resolver.AllMembersResolve | HypeXAPI.js:136-160 | when no member fails, the object resolves and each member holds what resolving that member alone gives |
| Resolver.SingleMemberResolves | HypeXAPI.js:136-160 | an object with one member that resolves becomes the one-member object of the resolved value |
| ResolverExamples.SinglePlaceholderSubstituted | HypeXAPI.js:142-156 | `pre${name}` becomes `pre` followed by the walked value's string form |
| ResolverExamples.GreetingSubstituted | HypeXAPI.js:142-156 | `Hello ${user.name}` with scope `{user:{name:"Ann"}}` gives `Hello Ann` |
| ResolverExamples.UserNamePath | HypeXAPI.js:146 | `user.name` parses to the path `["user","name"]` |
| ResolverExamples.UserNameWalk | HypeXAPI.js:147-155 | walking `["user","name"]` through `{user:{name:"Ann"}}` gives `"Ann"` |
| ResolverExamples.MissingPathBecomesUndefined | HypeXAPI.js:147-156 | a placeholder whose path is missing becomes the text `undefined` |
| ResolverExamples.GreetingResolved | HypeXAPI.js:132-163 | the greeting as an object member is rewritten in the resolved object |
| ResolverExamples.TopLevelStringKept | HypeXAPI.js:132-135 | a string passed directly is returned unchanged |
| ResolverExamples.MemberCalledOnce | HypeXAPI.js:139-140 | a member function is called exactly once: a function it returns stays in the tree |
| Statement.EntryOrRaw | HypeXAPI.js:215-223 | a truthy dictionary entry is used, otherwise the raw config value; the lookup fails only when the dictionary read does |
| Statement.VocabularyEntry | HypeXAPI.js:112 | the vocabulary entry is the property read `ADL.verbs[id]`, so a verb the vocabulary lacks is undefined and falsy |
| Statement.ResolveVerb | HypeXAPI.js:111-113 | a truthy local verb wins, then a truthy vocabulary entry; when both are falsy the verb is null, so a falsy result is always null |
| Statement.ResolveEntry | HypeXAPI.js:215-223 | a field's resolved value is never a function, and a failing lookup fails the field |
| Statement.PlainEntryResolved | HypeXAPI.js:215-223 | a field is its truthy dictionary entry or else the raw config value: when that value holds no function and no placeholder, the resolved field is exactly it |
| Statement.ResolveFields | HypeXAPI.js:215-223 | a failing read of the variables fails the call, and none of the eight resolved fields is a function |
| Statement.InitialLookupsFallBack | HypeXAPI.js:31-98 | before anything is registered every dictionary lookup yields the raw config value, and a verb is the vocabulary's entry or null |
| Statement.BuildVerb | HypeXAPI.js:230-233 | the built verb is truthy, its `id` is the verb id and its `display["en-US"]` is the verb name |
| Statement.ConstructVerb | HypeXAPI.js:225-235 | a truthy verb is kept; a falsy one is replaced by `{id, display:{en-US: name}}` when `verb-id` and `verb-name` are both truthy; otherwise the verb stays falsy |
| Statement.BuildActivity | HypeXAPI.js:240-251 | the built activity is truthy with `objectType` "Activity", `id` the object id, and `definition.name["en-US"]` and `definition.description["en-US"]` the object name and description |
| Statement.ObjectBlockVerb | HypeXAPI.js:237-253 | with a truthy object the verb is untouched; with a falsy object and all three object fields truthy, the built activity lands in the verb |
| Statement.BuildAgent | HypeXAPI.js:257-273 | the built Agent has `objectType` "Agent"; it has a name iff `agent-name` is truthy; it has an mbox iff `agent-mbox` is truthy; the mbox is `mailto:` plus the mailbox, hashed iff `agent-hash-mbox` is truthy; it has an account iff both account fields are truthy, and the account is `{homePage: agent-account-page, name: agent-account-name}` |
| Statement.ActorOrFallback | HypeXAPI.js:255-278 | a truthy actor is kept; otherwise an Agent is built when name and mailbox, or both account fields, are truthy |
| Statement.IfTruthy | HypeXAPI.js:289-300 | an optional part is attached exactly when it is truthy |
| Statement.Assemble | HypeXAPI.js:280-308 | a statement is produced iff actor, verb and object are all truthy; it carries them, the truthy optional parts and the debug flag; otherwise the outcome is incomplete |
| Statement.SendStatementByConfig | HypeXAPI.js:210-309 | a falsy config does nothing; a sent statement has a truthy actor, verb and object, and its object is the resolved object field |
| Statement.SentIffComplete | HypeXAPI.js:255-308 | once the fields resolve, the call succeeds exactly when the actor fallback does, and it sends exactly when the final actor, the verb after both construction blocks and the object are truthy |
| Statement.FalsyObjectNeverSent | HypeXAPI.js:237-308 | a falsy resolved object is never sent, whatever the object-id, name and description fields hold |
| Statement.FieldIgnoresOtherKeys | HypeXAPI.js:215-223 | a config read depends only on the key it names |
| Statement.AgentHashIgnored | HypeXAPI.js:262-268 | setting `agent-hash` changes nothing about the built Agent |
| Statement.DefaultActorUsed | HypeXAPI.js:275-277 | with no way to build an Agent, a missing actor becomes the default actor set last |
| StatementExamples.MissingFieldResolves | HypeXAPI.js:215-223 | an absent config field reads as undefined, finds nothing under the key `undefined`, and resolves to undefined |
| StatementExamples.ExampleVerb | HypeXAPI.js:111-113 | a verb key with no local entry resolves to the vocabulary's entry |
| StatementExamples.ExampleObject | HypeXAPI.js:217 | an object key finds its dictionary entry, or else stands for itself |
| StatementExamples.ExampleFields | HypeXAPI.js:215-223 | the example config resolves to the vocabulary verb, the object, and undefined for everything else |
| StatementExamples.ExampleAgent | HypeXAPI.js:255-273 | a config with name and mailbox but no actor builds `{objectType:"Agent", name, mbox:"mailto:"+mailbox}` |
| StatementExamples.ExampleSent | HypeXAPI.js:210-309 | the example config sends the built Agent, the vocabulary verb and the object, with no optional parts |
| StatementExamples.WithObjectsIsExampleStore | HypeXAPI.js:31-76 | the initial store with an object dictionary lacking `undefined` meets the example's store conditions |
| StatementExamples.DollarFreePlain | HypeXAPI.js:142 | a string without `$` holds no placeholder |
| StatementExamples.CompletedActivitySent | HypeXAPI.js:210-309 | `{verb:"completed", object:"act1", agent-name:"Ann", agent-mbox:"ann@example.com"}` with `objects = {act1:{id:"http://x/act1"}}` sends Agent Ann, the vocabulary's `completed` verb and the activity |
| StatementExamples.RawObjectKeySent | HypeXAPI.js:210-309 | with an empty object dictionary the same config is still sent, with the string `"act1"` as its object |
| ExportLines.RStrip | HypeXAPI.hype-export.py:338 | `rstrip` keeps the longest prefix that does not end in whitespace; everything it removes is whitespace |
| ExportLines.RStripNotBlank | HypeXAPI.hype-export.py:338 | a non-blank line is still non-blank after `rstrip` |
| ExportLines.RStripNoBreaks | HypeXAPI.hype-export.py:338 | `rstrip` of a line without line breaks has none |
| ExportLines.LineEnd | HypeXAPI.hype-export.py:338 | the first line break is found, and no character before it is a break |
| ExportLines.SplitLines | HypeXAPI.hype-export.py:338 | `splitlines` yields lines without breaks, and yields none exactly for the empty string |
| ExportLines.KeptLines | HypeXAPI.hype-export.py:338 | the kept lines are no more than the input lines; none is blank or ends in whitespace; none contains a break if the input lines do not |
| ExportLines.LineEndAfterPlain | HypeXAPI.hype-export.py:338 | text without breaks in front shifts the first break by its length |
| ExportLines.SplitLinesStep | HypeXAPI.hype-export.py:338 | a break-free non-empty line followed by `\n` splits off as one line |
| ExportLines.SplitLinesOfJoin | HypeXAPI.hype-export.py:338 | non-empty break-free lines joined with `\n` split back into the same lines |
| ExportLines.KeptLinesOfClean | HypeXAPI.hype-export.py:338 | lines that are non-blank and have no trailing whitespace are all kept unchanged |
| ExportLines.RemoveEmptyLines | HypeXAPI.hype-export.py:337-338 | the output's lines are exactly the rstripped non-blank input lines, in order; the output holds no `\r` and does not end in `\n`, so the lines are joined by single `\n` |
| ExportLines.JoinedLinesShape | HypeXAPI.hype-export.py:338 | non-empty break-free lines joined with `\n` contain no `\r`, are empty only for no lines, and do not end in `\n` |
| ExportLines.JoinOfSplitLines | HypeXAPI.hype-export.py:338 | a text with no `\r` and no final `\n` is the `\n`-join of its own `splitlines` |
| ExportLines.RemoveEmptyLinesDetermined | HypeXAPI.hype-export.py:337-338 | any text with the kept lines, no `\r` and no final `\n` is the output of `remove_empty_lines` itself |
| ExportLines.RemoveEmptyLinesIdempotent | HypeXAPI.hype-export.py:337-338 | removing empty lines twice equals removing them once |
| ExportScript.Lower | HypeXAPI.hype-export.py:272 | lowering keeps the length and lowers each ASCII letter in place |
| ExportScript.PresentButNotEnabled | HypeXAPI.hype-export.py:261-273 | `has_setting` only asks for the key: a present value that is not an enabled word is present but not enabled |
| ExportScript.EnabledSetting | HypeXAPI.hype-export.py:261-273 | false when the key is absent; otherwise true iff the lowered value is `true`, `enabled` or `on`; enabled implies `has_setting` |
| ExportScript.WiderLoweringSameVerdict | HypeXAPI.hype-export.py:272 | a per-character lowering that agrees with ASCII lowering and maps no other character to a letter of `true`, `enabled` or `on` accepts exactly the values `Lower` accepts |
| ExportScript.EnabledUnderWiderLowering | HypeXAPI.hype-export.py:269-273 | `enabled_setting` computed with such a lowering answers as `EnabledSetting` does |
| ExportScript.EnabledIgnoresCase | HypeXAPI.hype-export.py:269-273 | writing the value in lower or upper case does not change whether it is enabled |
| ExportScript.EnabledExamples | HypeXAPI.hype-export.py:261-273 | `TRUE`, `On` and `Enabled` are enabled; `yes` is present but not enabled; an absent key is neither |
| ExportScript.SettingWord | HypeXAPI.hype-export.py:269-273 | a present setting is enabled exactly when its lowered value is one of the accepted words |
| ExportScript.ReplaceCustomVarsAbsent | HypeXAPI.hype-export.py:279-282 | script text without `${hype_id}` is returned unchanged |
| ExportScript.ReplaceCustomVars | HypeXAPI.hype-export.py:279-282 | the length changes by the number of `${hype_id}` occurrences times (id length − 10), and an id equal to the placeholder leaves the script unchanged |
| ExportScript.ReplaceCustomVarsOnce | HypeXAPI.hype-export.py:279-282 | one placeholder between placeholder-free text is replaced by the id and nothing else changes |
| ExportScript.InsertAt | HypeXAPI.hype-export.py:401-415 | the result is `s[:p]`, then the insert, then `s[p:]`, of length \|s\| + \|insert\| |
| ExportScript.InsertAtRemoved | HypeXAPI.hype-export.py:401-415 | cutting the inserted slice out of the result gives back `s` |
| ExportScript.InsertAtEnd | HypeXAPI.hype-export.py:401-404 | without a match the call fails; otherwise the text goes in at the match's start and the matched text follows it unchanged |
| ExportScript.InsertAtStart | HypeXAPI.hype-export.py:412-415 | without a match the call fails; otherwise the text goes in at the match's end and the matched text stays in place |
| ExportCache.WithMtimeAppend | HypeXAPI.hype-export.py:253 | selecting the files of one time distributes over concatenation |
| ExportCache.InsertByMtime | HypeXAPI.hype-export.py:253 | inserting into a sorted listing keeps it sorted and adds exactly that file |
| ExportCache.SortByMtime | HypeXAPI.hype-export.py:253 | the sorted listing is ordered by time and is a permutation of the listing |
| ExportCache.InsertKeepsTies | HypeXAPI.hype-export.py:253 | an inserted file goes before every file of the same time |
| ExportCache.SortIsStable | HypeXAPI.hype-export.py:253 | files with the same time keep their listing order |
| ExportCache.SelectEvictions | HypeXAPI.hype-export.py:246-255 | with at most 50 files nothing is deleted; otherwise exactly len−50 are deleted and 50 kept; deleted and kept together are the listing; the deleted files go oldest first and none is newer than any kept file |
| ExportCache.EvictionKeepsListingOrder | HypeXAPI.hype-export.py:252-255 | among files with the same time, the ones listed first are deleted first |
| Text.NatToString | HypeXAPI.js:122-123 | `String(parseInt(digits))` is a canonical decimal numeral |
| Text.DigitsValueOfNatToString | HypeXAPI.js:122-123 | reading back the decimal form of n gives n |
| Text.NatToStringOfDigitsValue | HypeXAPI.js:122-123 | a canonical numeral is the decimal form of its own value |
| Text.SplitOn | HypeXAPI.js:125 | `split('.')` yields at least one part and no part contains the separator |
| Text.JoinSplitOn | HypeXAPI.js:125 | joining the parts of a split with the separator gives back the string |
| Text.SplitOnJoin | HypeXAPI.js:125 | splitting a join of separator-free parts gives back the parts |
| Text.FindSub | HypeXAPI.js:156 | the reported position is an occurrence and no earlier position is; no position at all means no occurrence |
| Text.ReplaceAllLength | HypeXAPI.hype-export.py:281 | `str.replace` changes the length by occurrences times the length difference |
| Text.ReplaceAll | HypeXAPI.hype-export.py:281 | a text with no occurrence of the pattern is returned unchanged |
| Text.ReplaceAllAbsent | HypeXAPI.hype-export.py:281 | with no occurrence there is nothing to count and nothing changes |
| Text.ReplaceAllSelf | HypeXAPI.hype-export.py:281 | replacing a pattern by itself changes nothing |
| Text.ReplaceAllSkipsPrefix | HypeXAPI.hype-export.py:281 | text that cannot start an occurrence is copied through in front |
| Text.ReplaceAllAtFront | HypeXAPI.hype-export.py:281 | an occurrence at the front of text that has no further one is the only part replaced |
| Text.ReplaceAllOnce | HypeXAPI.hype-export.py:281 | a single occurrence between text that cannot start one and text without one becomes the replacement, everything else kept |

## Left out

- DOM scraping in `sendStatementByDataset` (`HypeXAPI.js:170-203`), the `HypeDocumentLoad` hook and `isHypePreview`. These read the host page and `window.location`.
- `sendStatement`, `changeConfig` and the transport error handler `xhrRequestOnError`. These are the transport library's network, console and JSON work.
- The statement object's `generateId`, `generateRegistration` and `add…Activity` methods. These produce random ids or belong to the transport library. The draft records the parent, grouping and other activities separately.
- Statement.BuildAgent: the transport library's `hash` is a function parameter, so the model does not say what hash it computes.
- JsValue.Value: numbers are integers. Floating point, NaN and `parseInt` on digit runs too long to be exact are not modelled.
- JsValue.Get: no prototype properties, such as `toString`. Array indices are not capped at 2^32 − 2. String length and indexing count code points rather than UTF-16 units.
- JsValue.StringOf: a function's source text is represented by one fixed string.
- Resolver.ResolveTree: an object's members form a map, so `for…in` order is not modelled. When several members fail, only the fact that one failed is kept. Any such failure is a TypeError.
- Resolver.Resolve: the source rewrites the tree in place. Aliasing between the resolved tree and stored dictionary entries is not modelled, and neither are cyclic trees.
- Defaults.SetDefault: a write to an array store at a non-index name or at an index at or past the array's length (the array is not extended), or to a function store, is not kept.
- The Python export script's `remove_lines` and the hype-function rewrite in `modify_generated_script`. These need a full regular-expression engine.
- The closure-compiler HTTP calls, the md5-named cache files, `os.walk`, file reads and writes, `shutil` and `exit_with_result`. These are I/O.
- The preview error modal strings. They are constant text.
- ExportScript.InsertAtEnd and ExportScript.InsertAtStart: the regular-expression search is a parameter (its match span). The model does not decide where a pattern matches.
- ExportScript.EnabledSetting: document argument values are strings; whether a setting is enabled does not depend on lowering beyond ASCII (see ExportScript.Lower).
- ExportScript.Lower: lowers ASCII letters only. The document arguments come from `json.loads` (`HypeXAPI.hype-export.py:151`) and are unicode, whose `lower()` also lowers letters such as `É`. `enabled_setting` gives the same answer either way: the only characters beyond ASCII that lower into ASCII become `i` or `k`, neither of which occurs in `true`, `enabled` or `on` (`ExportScript.WiderLoweringSameVerdict`).
- ExportCache.SelectEvictions: modification times are integers, not floats. Reading them and deleting files is I/O left to the caller.
