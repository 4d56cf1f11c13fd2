# framease core, modelled in Dafny

framease validates network devices. It works on an offline FortiGate
configuration dump. A *validation model* parses the dump into the
`fgt_cli_configuration` capability: a nested hierarchy of `config`/`edit`
contexts, a flat log of `set` directives, the firmware version, and the
interface and administrator indices. *Check plugins* then evaluate specs
against that capability and report `Result` objects, or plain dicts of
verdicts. This project models the following parts of the system:

- the configuration parser;
- the five check plugins `fg_each`, `fg_setting`, `fg_version`, `manual` and `validate_dict_key`;
- both result containers;
- the list and token operations on the account and suite records.

It also proves what each of them promises.

Modules, one per source file:

| module | file | models |
|---|---|---|
| `Support` | support.dfy | Python exceptions as `Outcome`, and the string helpers the code calls (`strip`, `split`, `join`, `isdigit`, `int`) |
| `Json` | json.dfy | decoded JSON values, dicts as insertion-ordered association lists, and the Python operations on them (subscript, `get`, `in`, iteration, `str()` and `repr()` with their escapes, `json.dumps` with its ASCII escapes) |
| `FortigateOffline` | fortigate_offline.dfy | `app/validation_models/fortigate_offline/model.py` |
| `ResultModel` | result_model.dfy | `app/utils/result.py` |
| `FgEach` | fg_each.dfy | `app/plugins/fg_each/plugin.py` |
| `FgSetting` | fg_setting.dfy | `app/plugins/fg_setting/plugin.py` |
| `FgVersion` | fg_version.dfy | `app/plugins/fg_version/plugin.py` |
| `Manual` | manual.dfy | `app/plugins/manual/plugin.py` |
| `ValidateDictKey` | validate_dict_key.dfy | `app/plugins/validate_dict_key/plugin.py` |
| `LegacyResult` | legacy_result.dfy | `app/utils.py` |
| `Accounts` | accounts.dfy | `User`, `TestSuite` and `SuiteCase` operations of `app/models.py` |

The form of the model follows the source:

- Code that loops and mutates is modelled as Dafny methods with loop invariants. Each method is proved equal to a specification function:
  - `process`'s line joining;
  - the index loops;
  - the plugin loops;
  - `Results.__ior__`;
  - `Results.fromJSON`;
  - `from_dict`.
- Classes whose fields the source updates in place are Dafny classes:
  - `Result` and `Results`;
  - the older `Result`;
  - `User`, `TestSuite` and `SuiteCase`.
- Pure code is modelled as functions and lemmas. Every exception the source can raise on a path is a `Raised` outcome. A plugin's catch-all handler is modelled as "stop and return what was built so far".

Where the code and the system's own description disagree, the model follows the code:

- Lines broken inside a quoted string are re-joined with the two characters backslash and `n`, not with a newline.
- `fg_each` appends one result per matched entry under `fail_on_match`/`pass_on_match`, not one result per spec.
- A positive `fg_each` threshold needs strictly more passes than the number.
- A threshold of `"0"` behaves like `none`.
- The type list of `fg_each` also has `addr6grp`.
- `manual` always produces WARN/WARN. Nothing makes it auto-pass.
- `fg_setting` reads `setting_spec` and `manual` reads `manual_checks`, although each plugin's parameter list advertises another name (`setting_specs`, `manual_steps`).
- `fg_version` reads `parameters.fw_version`, although its parameter list names `version`.
- A `set` outside any context is accepted, not rejected. It is written into the root of the hierarchy, and its flat-log key is `|set k`.
- Contexts still open at the end of the input are tolerated silently. Nothing flags them.

## Model

| member | source | states |
|---|---|---|
| FortigateOffline.JoinQuotedLines | app/validation_models/fortigate_offline/model.py:99-110 | the `quoted_newline` loop yields exactly `LogicalLines("", file)`, and its lines are `Segmented`: consecutive non-empty runs of physical lines that together make up the file, each joined with `\n`, each ending at the first line that balances its `"` (every shorter start of a run is odd), every line but the last balanced |
| FortigateOffline.LogicalLinesRuns | app/validation_models/fortigate_offline/model.py:99-110 | with held-back lines whose every prefix is odd, the logical lines segment the held lines followed by the rest of the file into shortest balanced runs |
| FortigateOffline.LogicalLinesAllBalanced | app/validation_models/fortigate_offline/model.py:101-108 | a file whose every physical line is balanced is its own list of logical lines: a balanced line is never merged |
| FortigateOffline.LogicalLinesRejoin | app/validation_models/fortigate_offline/model.py:99-110 | joining the logical lines with `\n` gives back the physical lines joined the same way, so no text is lost or reordered |
| FortigateOffline.LogicalLinesBalanced | app/validation_models/fortigate_offline/model.py:101-110 | every logical line but the last has an even number of `"`; there are never more logical lines than physical ones |
| FortigateOffline.LogicalLinesEmpty | app/validation_models/fortigate_offline/model.py:99-110 | there are no logical lines exactly when nothing is held back and the file is empty |
| FortigateOffline.LogicalLinesHeldBound | app/validation_models/fortigate_offline/model.py:109-110 | text held back adds at most one logical line at the end of the input |
| FortigateOffline.WordEnd | app/validation_models/fortigate_offline/model.py:120 | an unquoted token ends at the first whitespace after its start, or at the end of the line |
| FortigateOffline.TokenizeJoin | app/validation_models/fortigate_offline/model.py:120 | tokens written with single spaces are read back as exactly those tokens (quotes kept, as non-posix `shlex.split` does) |
| FortigateOffline.FirstTokenStart | app/validation_models/fortigate_offline/model.py:120-121 | the directive token starts with the line's first character when that is neither whitespace nor a quote |
| FortigateOffline.MatchPrefix | app/validation_models/fortigate_offline/model.py:65-69 | the result holds exactly the entries whose key starts with the prefix: each result entry is in the map, and each matching map entry is in the result |
| FortigateOffline.MatchPrefixConcat | app/validation_models/fortigate_offline/model.py:65-69 | filtering distributes over concatenation, so entries come out in map order |
| FortigateOffline.LookupReplace | app/validation_models/fortigate_offline/model.py:71-78 | writing a node at a resolving path makes that path resolve to the node |
| FortigateOffline.PutGet | app/validation_models/fortigate_offline/model.py:75-76 | re-storing a key's own value leaves a dict unchanged |
| FortigateOffline.GetContext | app/validation_models/fortigate_offline/model.py:71-78 | the only exception is TypeError, from descending through a string leaf |
| FortigateOffline.GetContextSpec | app/validation_models/fortigate_offline/model.py:71-78 | the returned node is at `path` in the resulting hierarchy; it is the existing node, or a new empty dict; a hierarchy where the path resolved is unchanged |
| FortigateOffline.GetContextKeeps | app/validation_models/fortigate_offline/model.py:71-78 | existing entries are untouched: every path that resolved still resolves, and every string leaf keeps its value |
| FortigateOffline.StepAligned | app/validation_models/fortigate_offline/model.py:115-139 | after every directive the current context is the node at the current path |
| FortigateOffline.StepDirective | app/validation_models/fortigate_offline/model.py:121-133 | `config`/`edit` push the left-trimmed line; `next`/`end` pop one segment; popping an empty stack raises IndexError |
| FortigateOffline.SetLine | app/validation_models/fortigate_offline/model.py:120-134 | a `set k v1 … vn` line tokenizes to `set`, `k`, `v1 … vn` |
| FortigateOffline.SetTokensPlain | app/validation_models/fortigate_offline/model.py:120 | the tokens of a written-out `set` line are all plain tokens |
| FortigateOffline.StepSet | app/validation_models/fortigate_offline/model.py:134-139 | `set k v1 … vn` stores `v1 … vn` joined by single spaces under `k` in the context, and under `'|'.join(path) + '|set k'` in the flat log; alignment is kept |
| FortigateOffline.StepVersion | app/validation_models/fortigate_offline/model.py:118-119 | a `#config-version` line records its third hyphen-delimited field and changes nothing else |
| FortigateOffline.WalkAligned | app/validation_models/fortigate_offline/model.py:115-139 | the whole directive walk stays aligned |
| FortigateOffline.NameOf | app/validation_models/fortigate_offline/model.py:142 | the name is the last posix token; it raises exactly when the split raises or gives no token |
| FortigateOffline.ShlexPlainWords | app/validation_models/fortigate_offline/model.py:142 | posix `shlex.split` of plain words separated by single spaces gives the words |
| FortigateOffline.NameOfQuoted | app/validation_models/fortigate_offline/model.py:142 | the name of `edit "port 1"` is the text inside the quotes, spaces included |
| FortigateOffline.NameOfOpenQuote | app/validation_models/fortigate_offline/model.py:142 | without backslashes or double quotes, the split raises exactly when the single quotes are odd in number, and the name then raises ValueError (`edit it's`) |
| FortigateOffline.NamesSpec | app/validation_models/fortigate_offline/model.py:141-147 | names are read in order: all succeed, one per child, or the error is that of the first child whose name raises |
| FortigateOffline.IndexOfSpec | app/validation_models/fortigate_offline/model.py:141-147 | an index has one key per distinct child name; a name is present iff some child carries it; each name maps to the dump of the last child with that name |
| FortigateOffline.BuildIndex | app/validation_models/fortigate_offline/model.py:141-147 | the index loop computes `SectionIndex`; a missing top-level section raises KeyError, and an unreadable name raises its error |
| Json.Quote | app/validation_models/fortigate_offline/model.py:143 | a `json.dumps` string literal is quoted and pure printable ASCII |
| Json.UnquoteQuote | app/validation_models/fortigate_offline/model.py:143 | `json.loads` reads every dumped string back unchanged, surrogate pairs included |
| Json.ReadReprString | app/plugins/fg_each/plugin.py:79 | reading `repr(s)` back as a Python literal gives `s`, for the quote `repr` picks |
| FortigateOffline.Process | app/validation_models/fortigate_offline/model.py:84-149 | `process` (as intended) computes `Parse(file)`: join lines, walk directives, build both indices |
| FortigateOffline.ParseHierarchy | app/validation_models/fortigate_offline/model.py:112-139 | a successful parse's hierarchy is the walk's hierarchy, and the walk ends aligned |
| FortigateOffline.ToJson | app/validation_models/fortigate_offline/model.py:91-149 | the capability object holds the hierarchy, and `fw_version` exactly when a version line was seen |
| FortigateOffline.JoinAsWrittenRaises | app/validation_models/fortigate_offline/model.py:88-110 | the line loop as written, appending to the dict `config_lines`, raises AttributeError at its first append, and only an empty file with nothing held reaches the end |
| FortigateOffline.ProcessAsWrittenAlwaysRaises | app/validation_models/fortigate_offline/model.py:88-141 | `process` exactly as written raises on every input: AttributeError for a non-empty file, KeyError at the missing `config system interface` section for an empty one |
| ResultModel.FromCode | app/utils/result.py:41-45 | a code names a member iff it is 0 to 3, and that member has this code |
| ResultModel.StatusCodes | app/utils/result.py:41-45 | exactly four members; distinct codes; each member is recovered from its code |
| ResultModel.ApprovalOf | app/utils/result.py:62-67 | the stored approval is the argument when it is a truthy member, otherwise NONE; it is always a member |
| ResultModel.Result.constructor | app/utils/result.py:58-73 | stores description and validation status as given and the approval by `ApprovalOf`; details start empty |
| ResultModel.Result.AddDetail | app/utils/result.py:75-78 | appends exactly one detail, JSON-encoding a non-string; nothing else changes |
| ResultModel.Result.FromJson | app/utils/result.py:47-56 | builds a new result holding what `Decode` reads, or raises what `Decode` raises |
| ResultModel.DecodeEncode | app/utils/result.py:47-86 | reading back a written result gives the same result |
| ResultModel.Results.Add | app/utils/result.py:16-18 | appends exactly one entry at the end, keeps the earlier ones, returns self |
| ResultModel.Results.IAdd | app/utils/result.py:20-24 | `+=` accepts only a `Result`; anything else raises ValueError and changes nothing; every approval status stays a member |
| ResultModel.Results.IOr | app/utils/result.py:26-32 | `\|=` appends all of the other container's entries in order, with no merging; a non-`Results` argument raises ValueError; every approval status stays a member |
| ResultModel.Results.FromJson | app/utils/result.py:5-11 | a new container holding every listed result in order, each approval status a member, or the first decoding error |
| ResultModel.DecodeEachFails | app/utils/result.py:9-10 | the first result that fails to decode is the error of the whole read |
| ResultModel.DecodeEachEncode | app/utils/result.py:9-36 | decoding each encoded result gives back the list |
| ResultModel.DecodeAllEncodeAll | app/utils/result.py:5-37 | `fromJSON(toJSON(r))` has the same entries, in the same order, with equal fields |
| ResultModel.ContainerRoundTrip | app/utils/result.py:5-37 | for any container built by these operations, `fromJSON(toJSON(r))` holds exactly its entries, in order |
| FgEach.ValidateOneSpec | app/plugins/fg_each/plugin.py:36-46 | on a dict and a string key, present key: truthy iff stored == value, or stored stripped of `"` == value, or (partial and contained); absent key: `or_empty`; non-string stored value: AttributeError |
| FgEach.ValidateAnySome | app/plugins/fg_each/plugin.py:30-35 | a list of values validates iff some element validates |
| FgEach.AnyId | app/plugins/fg_each/plugin.py:56-59 | true iff some selector id matches the entry |
| FgEach.CheckMatch | app/plugins/fg_each/plugin.py:48-59 | `True` matches every entry; a list matches `edit X` or `edit "X"` for some X; `negate` inverts either answer |
| FgEach.SeparatorFrom | app/plugins/fg_each/plugin.py:61 | finds the first `\|` not preceded by a backslash |
| FgEach.SplitPipes | app/plugins/fg_each/plugin.py:61-100 | a split always has at least one field |
| FgEach.SplitPipesJoin | app/plugins/fg_each/plugin.py:61-100 | joining the fields with `\|` gives the text back; every `\|` left inside a field is escaped; every cut is an unescaped `\|`, since no field but the last ends in a backslash. So the cuts are exactly the unescaped pipes |
| FgEach.VisitOf | app/plugins/fg_each/plugin.py:109-126 | an unselected entry is skipped; `fail_on_match` wins over `pass_on_match`, and both bypass `validate_setting`; otherwise a selected entry's verdict is `validate_setting`'s result, and the entry raises exactly when `validate_setting` raises |
| FgEach.EntriesTally | app/plugins/fg_each/plugin.py:106-126 | match = pass + fail; `fail_on_match` appends one FAIL per match and no pass; `pass_on_match` appends one PASS per match and no fail; otherwise the loop appends nothing |
| FgEach.EntriesStopped | app/plugins/fg_each/plugin.py:67-174 | after an exception, later entries add nothing |
| FgEach.Summary | app/plugins/fg_each/plugin.py:130-167 | all: PASS iff pass>0 and fail=0; any: PASS iff pass>0; none or any digit string worth 0 (`"0"`, `"00"`): PASS iff fail>0 and pass=0; digits n>0: PASS iff pass>n; other strings: no result; non-strings: AttributeError; the description is the spec's followed by ` (<p> pass/<f> fail/<m> matched)`, with the pass and fail counts swapped under `none` and zero |
| FgEach.SpecRunMalformed | app/plugins/fg_each/plugin.py:96-105 | an unknown type or a bad selector appends exactly one FAIL marked ` [ERROR: type]` / ` [ERROR: select]` |
| FgEach.TallyCounts | app/plugins/fg_each/plugin.py:106-126 | when nothing raised: `match_count` is the number of selected entries; without the flags, `pass_count` is the number of selected entries that validate and `fail_count` the rest; with a flag, one result is appended per selected entry |
| FgEach.SpecRunFailOnMatch | app/plugins/fg_each/plugin.py:115-128 | under `fail_on_match`: one FAIL per selected entry, then one PASS `(user not found)` |
| FgEach.SpecRunSummary | app/plugins/fg_each/plugin.py:127-167 | without the flags, a spec whose entry loop raises nothing appends exactly the summary result for (selected, validating, selected − validating) |
| FgEach.RunAllStopped | app/plugins/fg_each/plugin.py:67-174 | once a spec raises, no later spec adds anything |
| FgEach.RunAllStatuses | app/plugins/fg_each/plugin.py:97-167 | every result the plugin appends is PASS or FAIL |
| FgEach.ValuesOfConcat | app/plugins/fg_each/plugin.py:97-167 | the container's values of two runs appended are the values of each |
| FgEach.Append | app/plugins/fg_each/plugin.py:97 | `result += Result(d, s)` appends one entry with approval NONE and no details |
| FgEach.RunEntries | app/plugins/fg_each/plugin.py:106-126 | the entry loop appends what `Entries` specifies and ends with its tally |
| FgEach.Close | app/plugins/fg_each/plugin.py:127-167 | the closing step appends what `Closing` specifies |
| FgEach.RunSpec | app/plugins/fg_each/plugin.py:68-167 | one pass of the spec loop appends what `SpecRun` specifies |
| FgEach.Check | app/plugins/fg_each/plugin.py:63-174 | `check` returns a new container holding exactly `Output(data)` |
| FgSetting.ValidateSetting | app/plugins/fg_setting/plugin.py:21-32 | present key: true iff stored == value exactly (no quote stripping), else containment under partial, else false; absent key: `or_empty` |
| FgSetting.CollectOk | app/plugins/fg_setting/plugin.py:39-50 | a spec loop that completes holds each spec's verdict, in order |
| FgSetting.CollectRaises | app/plugins/fg_setting/plugin.py:38-53 | one spec that raises makes the whole loop raise |
| FgSetting.VerdictsOk | app/plugins/fg_setting/plugin.py:39-49 | completed verdicts are each spec's verdict, in order |
| FgSetting.VerdictsStep | app/plugins/fg_setting/plugin.py:39-49 | one more successful spec extends the verdicts by its own |
| FgSetting.AnswerLastWins | app/plugins/fg_setting/plugin.py:45-49 | each description maps to the verdict of the last spec carrying it |
| FgSetting.AnswerKeys | app/plugins/fg_setting/plugin.py:45-49 | a description is in the answer exactly when some spec carries it; any other is absent |
| FgSetting.AnswerFalse | app/plugins/fg_setting/plugin.py:39-53 | any failing spec (missing path segment, field or `setting_spec`) makes `check` return False |
| FgSetting.AnswerDistinct | app/plugins/fg_setting/plugin.py:37-49 | the answer never holds a description twice |
| FgSetting.EvaluateMap | app/plugins/fg_setting/plugin.py:37-50 | a dict answer is the verdicts put in order into an empty dict |
| FgSetting.FollowStops | app/plugins/fg_setting/plugin.py:47-48 | a missing segment stops the path walk with its error |
| FgSetting.EvalSpec | app/plugins/fg_setting/plugin.py:40-49 | one pass of the spec loop, including the `config_path` walk, computes `Verdict` |
| FgSetting.Check | app/plugins/fg_setting/plugin.py:34-53 | the spec loop computes `Evaluate(data)` |
| FgVersion.Description | app/plugins/fg_version/plugin.py:27 | the description exists iff `parameters.fw_version` is a string, and is the prefix followed by it |
| FgVersion.Check | app/plugins/fg_version/plugin.py:22-36 | raises iff the wanted version is missing or not a string; otherwise exactly one entry; True iff the installed version equals the wanted one; on a mismatch the key names the installed version; without one the key is the bare description |
| Manual.Requires | app/plugins/manual/plugin.py:25-27 | `requires()` is empty |
| Manual.Label | app/plugins/manual/plugin.py:35 | a step has a key iff it is a dict with a string description; the key is `[MANUAL CHECK] ` followed by it |
| Manual.KeyOrderSpec | app/plugins/manual/plugin.py:36 | identical descriptions collapse: the keys are distinct and are exactly the labels |
| Manual.LabeledAll | app/plugins/manual/plugin.py:34-36 | with no failing step, there is one label per step, in order |
| Manual.LabeledStops | app/plugins/manual/plugin.py:34-40 | a failing step ends the loop, and only earlier steps have entries |
| Manual.LabeledBound | app/plugins/manual/plugin.py:34-36 | there are never more labels than steps |
| Manual.LabeledStays | app/plugins/manual/plugin.py:37-40 | after the loop stops, later steps change nothing |
| Manual.PutKeyOrder | app/plugins/manual/plugin.py:36 | filling the dict one label at a time keeps its keys in first-occurrence order |
| Manual.Record | app/plugins/manual/plugin.py:36 | `result[d] = Result(d, WARN, approval_status=WARN)` keeps the key order and the WARN invariant |
| Manual.Check | app/plugins/manual/plugin.py:29-40 | the keys are the labels of the completed steps, each once; every value is a new WARN/WARN result with no details |
| ValidateDictKey.CarriesRequirements | app/plugins/validate_dict_key/plugin.py:16-25 | carrying `key`, `value` and `data` is the presence of every listed requirement |
| ValidateDictKey.Check | app/plugins/validate_dict_key/plugin.py:24-30 | a missing requirement raises KeyError; a key absent from `data` raises KeyError; otherwise the result is `data[key] == value` |
| ValidateDictKey.PassNeedsRequirements | app/plugins/validate_dict_key/plugin.py:24-30 | only a dict carrying all three requirements can pass |
| LegacyResult.StoredApproval | app/utils.py:15-18 | the argument when it is a truthy member, NONE otherwise; always a member's code |
| LegacyResult.AgreesWithIntEnum | app/utils.py:15-18 | the older class stores the same approval code as the `IntEnum` one, for every argument |
| LegacyResult.Result.constructor | app/utils.py:12-19 | validation status stored unchanged; approval by `StoredApproval`; details empty |
| LegacyResult.Result.AddDetail | app/utils.py:21-24 | appends exactly one detail, JSON-encoding a non-string |
| Accounts.Added | app/models.py:154-156 | the role is present afterwards; a present role leaves the list unchanged; an absent one is appended |
| Accounts.AddedKeepsDistinct | app/models.py:154-156 | adding a role never introduces a duplicate |
| Accounts.RemoveAbsent | app/models.py:158-160 | removing an absent role changes nothing |
| Accounts.RemovePresent | app/models.py:158-160 | removing a present role removes its first occurrence and keeps the others in order |
| Accounts.RemoveFirstSpec | app/models.py:158-160 | exactly one copy of a present role goes, and nothing else |
| Accounts.AddThenRemove | app/models.py:154-160 | adding a role the user lacked, then removing it, restores the list |
| Accounts.User.HasRole | app/models.py:151-152 | true iff the role is in the list |
| Accounts.User.AddRole | app/models.py:154-156 | the roles become `Added(roles, role)` and `has_role` holds; nothing else changes |
| Accounts.User.RemoveRole | app/models.py:158-160 | the roles become `RemoveFirst(roles, role)`; nothing else changes |
| Accounts.TokenStep | app/models.py:131-139 | reuse while the expiry is more than 60 s after now; otherwise the new token, expiring `expires_in` from now; a token without an expiry raises |
| Accounts.TokenReused | app/models.py:131-139 | a token handed out is handed out again by any call made more than 60 s before it expires |
| Accounts.Revoked | app/models.py:141-142 | revocation moves the expiry one second into the past and keeps the token |
| Accounts.RevokedTokenReplaced | app/models.py:131-142 | after a revocation the next call issues a new token |
| Accounts.User.GetToken | app/models.py:131-139 | returns and stores what `TokenStep` specifies; nothing else changes |
| Accounts.User.GetTokenDefault | app/models.py:131-139 | `get_token()` without an argument: a newly issued token expires 300 seconds from now |
| Accounts.User.RevokeToken | app/models.py:141-142 | the token fields become `Revoked(tokens, now)` |
| Accounts.User.FromDict | app/models.py:124-127 | copies exactly those of `username`, `email` and `about_me` present in the input; nothing else changes |
| Accounts.User.SetField | app/models.py:127 | `setattr` on one profile field changes only that field |
| Accounts.TestSuite.AddCase | app/models.py:230-231 | appends exactly one new row `(suite id, case, sequence)` at the end; earlier rows are kept |
| Accounts.SuiteCase.constructor | app/models.py:299-303 | stores suite id, case id and sequence |

## Left out

- The outer JSON text layer is not modelled: `toJSON`/`fromJSON` and every plugin's "input may be a JSON string" branch work on decoded values. `Result.toJSON` dumps its details a second time, which becomes a nested array. The `json.dumps` texts stored in the indices and in details are modelled as text, by `Json.Dumps`.
- Json.ReprPrintable: `repr` keeps a non-ASCII character that Unicode calls printable. The model keeps every non-ASCII character except U+0080 to U+00A0 and U+00AD. Other non-printable characters are kept as they are, not written as `\u`/`\U` escapes: format controls, non-ASCII spaces, line and paragraph separators, unassigned code points.
- ResultModel.Decode: a decoded field outside the model's types raises ValueError. The source would store it anyway, for example a non-string description or a non-integer validation status.
- Python's numeric equality across types (`True == 1`, `1 == 1.0`) is not modelled in `==` between decoded values. There are no floats.
- `str.strip`, `str.isdigit` and shell whitespace are ASCII-only here. Python's Unicode whitespace and digit classes are not modelled.
- ResultModel.Results.IOr: merging a non-empty container into itself never terminates in the source. The method requires that this case not arise.
- LegacyResult and ResultModel.ApprovalOf: `x in Status` for a non-member follows Python 3.12 and later, where it is a value lookup. Earlier versions raise TypeError.
- Accounts.User.FromDict: the password branch, which hashes with werkzeug, is not modelled. Field values are strings.
- Accounts: ORM mapping and sessions, password hashing, JWT reset tokens, notifications, rq tasks, `check_token` (a database query), `to_dict` and `__repr__` are outside the modelled operations. Role objects are identified by an integer id.
- The clock and `secrets.token_hex` are parameters of `get_token`/`revoke_token`: `now` in seconds and the issued token.
- Each plugin's static `parameters()`/`usage` metadata is not modelled. So are `fg_version`'s `requires()` and the parser's `requires()`/`provides()`.
- Debug `print` and `traceback` output, and the unused `cleanip_skus` list, are not modelled.
- The Flask routes, forms, app factory, plugin discovery, the `ping` plugin, `app/tasks.py` and the migrations are not part of this model.

## Findings

| source | as written | input that shows it | evidently intended | confidence | as-written member | corrected member |
|---|---|---|---|---|---|---|
| app/validation_models/fortigate_offline/model.py:81-110 | `config_lines` is created as a dict and then `.append`ed to; `set_value` assigns the undefined name `value` | any file with at least one logical line, e.g. `["config system global", "end"]`, raises AttributeError at line 108; an empty file raises KeyError at line 141 | logical lines kept in a separate list, `set` values in the flat log, and `ctx[key] = val` | high (not executed) | FortigateOffline.ProcessAsWrittenAlwaysRaises | FortigateOffline.Process |
