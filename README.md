# Grafana: feature flags, dashboard save diffs and the entity store's SQL helpers

This project is a Dafny model of five small, sequential pieces of Grafana.

- **Feature-flag manager** (`FeatureMgmt`, `featuremgmt.dfy`). A class holds
  a name-keyed table of flag definitions and the map of flags that are on.
  - `RegisterFlags` merges definitions into the table field by field. A
    non-empty description, docs URL or expression replaces the old one. A
    known stage replaces the old stage. The three requirement booleans can
    only become true.
  - `Update` rebuilds `enabled` from the table. The expression engine is a
    parameter `eval`.
  - The remaining members are the lookups, plus the two test constructors
    `WithFeatures` and `WithFeatureFlags`.
- **Dashboard save-diff rules** (`DashboardChanges`,
  `dashboard_changes.dfy`).
  - The equality helpers for variable options and ad hoc filters.
  - The time-range check.
  - `applyVariableChanges`. It matches variables by name and type, reports
    value changes, strips `selected` from matched originals, and restores
    original values in place when variables are not being saved. It is a
    method over two dashboard objects, specified by a fold over the variable
    lists as they were before the loop.
  - `getDashboardChanges`, which resets time and refresh and derives the
    flags it reports. The JSON diff is a parameter.
- **SQL store helpers** (`SqlStash`, `sqlstash_utils.dfy`).
  - `ptrOr`, `sliceOr`, `mapOr` and `countTrue`.
  - The error classification and row accumulation of `query`, `queryRow`,
    `scanRow` and `exec`. The database, each row's scan and each row's
    results are outcomes given in advance.
- **SQL template object** (`SqlTemplate`, `sqltemplate.dfy`, with the
  formatter example in `sqltemplate_format_example.dfy`).
  - A class whose `Arg` and `Into` append to the argument and
    scan-destination lists, and whose `Reset` clears both.
  - `Execute`, over a rendering function that may fail.
  - `FormatSQL`, a whitespace normaliser: it lexes the text into tokens and
    writes them back with canonical spacing. Its token classes and clause
    keywords are this model's own reading of the one example in the tests.
- **MySQL dialects** (`SqlDialect`, `dialect_mysql.dfy`). The `MySQL` and
  `MySQL5` dialect values and the row-locking clause each of them emits.
  MySQL 5 downgrades the NOWAIT and SKIP LOCKED variants to the plain clause.

`Wrappers` (`wrappers.dfy`) holds the shared `Option` type; None stands for
Go's nil and for JavaScript's `undefined`.

The sqlstash helpers, the `SQLTemplate` methods and `FormatSQL` are modelled
from their unit tests, because their implementations are not part of this
model.
- In `sqlstash_utils.dfy`, the contracts state what the tests assert,
  including the calls the mocks expect on the request, and fill the rest
  with the natural reading.
- `FormatSQL` is one normaliser consistent with the test example. Its
  general lemmas are about this normaliser, and
  `SqlFormatExample.FormatSQLTestExample` proves the example.

## Model

| member | source | states |
|---|---|---|
| SqlDialect.MySQLDialectsTotal | pkg/services/store/entity/sqlstash/sqltemplate/dialect_mysql.go:8-24 | both MySQL dialects emit a clause for each of the six requested clauses |
| SqlDialect.MySQLKeepsClause | pkg/services/store/entity/sqlstash/sqltemplate/dialect_mysql.go:8-12 | MySQL 8 emits every clause as requested |
| SqlDialect.MySQL5DowngradesShare | pkg/services/store/entity/sqlstash/sqltemplate/dialect_mysql.go:17-20 | MySQL 5 emits plain FOR SHARE for each of the three share-lock variants |
| SqlDialect.MySQL5DowngradesUpdate | pkg/services/store/entity/sqlstash/sqltemplate/dialect_mysql.go:21-23 | MySQL 5 emits plain FOR UPDATE for each of the three update-lock variants |
| SqlDialect.MySQL5Idempotent | pkg/services/store/entity/sqlstash/sqltemplate/dialect_mysql.go:17-24 | every clause MySQL 5 emits is a fixed point of its map, so mapping twice is mapping once |
| SqlDialect.MySQL5KeepsLockStrength | pkg/services/store/entity/sqlstash/sqltemplate/dialect_mysql.go:17-24 | MySQL 5 never turns a share lock into an update lock or back |
| SqlDialect.MySQLDialectsNamesAndPlaceholders | pkg/services/store/entity/sqlstash/sqltemplate/dialect_mysql.go:10-26 | both dialects use SQL-92 placeholders; their names are "mysql8" and "mysql5" and differ |
| SqlTemplate.SQLTemplate.New | pkg/services/store/entity/sqlstash/sqltemplate/sqltemplate_test.go:12 | a new template has the given dialect, no arguments and no scan destinations |
| SqlTemplate.SQLTemplate.Arg | pkg/services/store/entity/sqlstash/sqltemplate/sqltemplate_test.go:13 | the argument list gains the argument at its end; the scan destinations are unchanged |
| SqlTemplate.SQLTemplate.Into | pkg/services/store/entity/sqlstash/sqltemplate/sqltemplate_test.go:14 | the scan destinations gain the destination at their end; the arguments are unchanged |
| SqlTemplate.SQLTemplate.Reset | pkg/services/store/entity/sqlstash/sqltemplate/sqltemplate_test.go:15-20 | afterwards both the argument list and the scan destinations are empty |
| SqlTemplate.SQLTemplate.GetArgs | pkg/services/store/entity/sqlstash/sqltemplate/sqltemplate_test.go:16 | no contract of its own: it returns the argument list, whose contents `Arg`, `Reset` and the constructor state |
| SqlTemplate.SQLTemplate.GetScanDest | pkg/services/store/entity/sqlstash/sqltemplate/sqltemplate_test.go:17 | no contract of its own: it returns the scan destinations, whose contents `Into`, `Reset` and the constructor state |
| SqlTemplate.ResetAfterBinding | pkg/services/store/entity/sqlstash/sqltemplate/sqltemplate_test.go:9-21 | a template on any dialect, given an argument and a destination and then reset, reports no arguments and no destinations |
| SqlTemplate.Execute | pkg/services/store/entity/sqlstash/sqltemplate/sqltemplate_test.go:23-43 | no error exactly when the template renders the data, and then the text is the rendering; otherwise the text is empty and the error names the template |
| SqlTemplate.Lex | pkg/services/store/entity/sqlstash/sqltemplate/sqltemplate_test.go:45-66 | every piece it cuts is a token: a non-empty run of one non-blank character class, or a single `;` |
| SqlTemplate.Render | pkg/services/store/entity/sqlstash/sqltemplate/sqltemplate_test.go:56-58 | no contract of its own: it writes the tokens with the separators of `Separator`; `LexOfRender` proves it inverts `Lex` |
| SqlTemplate.FormatSQL | pkg/services/store/entity/sqlstash/sqltemplate/sqltemplate_test.go:61 | no contract of its own: it renders what `Lex` cuts; the three `FormatSQL` lemmas below and `FormatSQLTestExample` state its behaviour |
| SqlTemplate.LexOfRender | pkg/services/store/entity/sqlstash/sqltemplate/sqltemplate_test.go:45-66 | lexing the canonical rendering of any token list gives back those tokens |
| SqlTemplate.FormatSQLKeepsTokens | pkg/services/store/entity/sqlstash/sqltemplate/sqltemplate_test.go:45-66 | the formatted text lexes to the same tokens as the input |
| SqlTemplate.LexKeepsText | pkg/services/store/entity/sqlstash/sqltemplate/sqltemplate_test.go:45-66 | lexing drops exactly the blank space: the tokens written one after the other are the input's non-blank characters, in order |
| SqlTemplate.FormatSQLKeepsText | pkg/services/store/entity/sqlstash/sqltemplate/sqltemplate_test.go:45-66 | formatting changes only blank space: removing the blanks from the formatted text and from the input gives the same text |
| SqlTemplate.FormatSQLIdempotent | pkg/services/store/entity/sqlstash/sqltemplate/sqltemplate_test.go:45-66 | formatting formatted text changes nothing |
| SqlTemplate.FormatSQLTrims | pkg/services/store/entity/sqlstash/sqltemplate/sqltemplate_test.go:45-66 | the result neither starts nor ends with blank space |
| SqlFormatExample.FormatSQLTestExample | pkg/services/store/entity/sqlstash/sqltemplate/sqltemplate_test.go:50-65 | the test's indented SELECT, with `"id">=`, runs of spaces and a spaced `;`, formats to exactly the expected three lines |
| SqlStash.PtrOr | pkg/services/store/entity/sqlstash/utils_test.go:63-83 | the result is never nil; it is the first non-nil argument, or the zero value when all are nil or there are none |
| SqlStash.PtrOrExamples | pkg/services/store/entity/sqlstash/utils_test.go:66-78 | the test's cases: no arguments and all-nil give the zero value, and 42 is picked over a later 5 |
| SqlStash.SliceOr | pkg/services/store/entity/sqlstash/utils_test.go:85-108 | the result is never nil; it is the first slice that is neither nil nor empty, or an empty slice |
| SqlStash.SliceOrExamples | pkg/services/store/entity/sqlstash/utils_test.go:92-103 | the test's cases: all nil or all empty give an empty slice, and `[1, 2]` is picked over a later `[10]` |
| SqlStash.MapOr | pkg/services/store/entity/sqlstash/utils_test.go:110-131 | the result is never nil; it is the first map that is neither nil nor empty, or an empty map |
| SqlStash.MapOrExamples | pkg/services/store/entity/sqlstash/utils_test.go:117-126 | the test's cases: nil and empty maps give an empty map, and the first non-empty map is picked |
| SqlStash.CountTrue | pkg/services/store/entity/sqlstash/utils_test.go:133-153 | no contract of its own: it counts the true flags; `CountTrueCounts` states the count |
| SqlStash.CountTrueCounts | pkg/services/store/entity/sqlstash/utils_test.go:133-153 | the count is the number of true flags, at most the number of flags, and zero exactly when no flag is true |
| SqlStash.CountTrueExamples | pkg/services/store/entity/sqlstash/utils_test.go:136-152 | the test's cases: 0 for no flags and for all false, 1 for one true, 3 for `false, true, false, true, true` |
| SqlStash.ScanRow | pkg/services/store/entity/sqlstash/utils_test.go:353-415 | a scan error is returned and the results are never read; otherwise a results error is returned; every error comes with the zero value and is the error given; success gives the row's result |
| SqlStash.RowCallsCounts | pkg/services/store/entity/sqlstash/utils_test.go:177-186 | scanning rows asks for the destinations once per row, for the results at most once per row, and never for the arguments |
| SqlStash.ScanRows | pkg/services/store/entity/sqlstash/utils_test.go:210-285 | the rows are scanned in order up to the first failing one, whose error is returned wrapped with a nil result; otherwise every result in row order, nil for no rows; the calls are each scanned row's own, in order |
| SqlStash.ValuesInOrder | pkg/services/store/entity/sqlstash/utils_test.go:210-228 | rows that all succeed give one result each, in row order |
| SqlStash.Query | pkg/services/store/entity/sqlstash/utils_test.go:188-285 | a template failure gives an execute-template error, a database failure a `SQLError`, and the first failing row a row-results error wrapping its own error, each with a nil result; otherwise no error, a nil result for no rows, and every row's result in order; the request is not asked for its arguments when the template fails; when the query succeeds it is asked once, then each scanned row makes its own calls |
| SqlStash.QueryRow | pkg/services/store/entity/sqlstash/utils_test.go:287-344 | the same template and database errors as `query`; otherwise the first row's result or its error, and the zero value with every error; the arguments are not asked for when the template fails; when the query succeeds they are asked for once, and only the first row is scanned |
| SqlStash.Exec | pkg/services/store/entity/sqlstash/utils_test.go:417-471 | the result is non-nil exactly when there is no error; a template failure and a database failure give their own errors; success gives the driver's result; the arguments are not asked for when the template fails, and are asked for once when the statement succeeds |
| FeatureMgmt.Merge | pkg/services/featuremgmt/manager.go:40-67 | for each of description, docs URL and expression, the incoming value wins when non-empty; a known stage wins; each requirement is the OR of both sides; name and value are kept |
| FeatureMgmt.MergeInto | pkg/services/featuremgmt/manager.go:40-67 | the field-by-field updates produce exactly the merged definition |
| FeatureMgmt.Register | pkg/services/featuremgmt/manager.go:29-68 | no contract of its own: one registration, skipping an unnamed definition, inserting an unseen name and merging into a known one; the `Register` lemmas below state it |
| FeatureMgmt.RegisterAll | pkg/services/featuremgmt/manager.go:28-68 | no contract of its own: the registrations from first to last; the `RegisterAll` lemmas below state it |
| FeatureMgmt.RegisterSkipsUnnamed | pkg/services/featuremgmt/manager.go:30-32 | a definition with an empty name leaves the table unchanged |
| FeatureMgmt.RegisterInsertsUnseen | pkg/services/featuremgmt/manager.go:33-38 | a definition with an unseen name is inserted as given, and nothing else changes |
| FeatureMgmt.RegisterTouchesOnlyItsName | pkg/services/featuremgmt/manager.go:29-38 | registering a definition neither adds, removes nor changes any entry under another name |
| FeatureMgmt.RegisterTwice | pkg/services/featuremgmt/manager.go:29-68 | registering the same definition a second time leaves the table as the first registration left it |
| FeatureMgmt.RegisterAllKeyedByName | pkg/services/featuremgmt/manager.go:28-68 | registering any definitions keeps every entry stored under its own name |
| FeatureMgmt.RegisterAllKeys | pkg/services/featuremgmt/manager.go:28-68 | afterwards the table's names are the old names plus the non-empty names registered |
| FeatureMgmt.RegisterAllUntouched | pkg/services/featuremgmt/manager.go:28-68 | an entry that no registered definition names stays as it was |
| FeatureMgmt.RegisterAllKeepsRequirements | pkg/services/featuremgmt/manager.go:56-67 | a requirement that is set stays set across any registrations |
| FeatureMgmt.RegisterAllKeepsLoneDefinition | pkg/services/featuremgmt/manager.go:33-38 | a definition whose name is new and appears once among those registered is stored exactly as given |
| FeatureMgmt.FeatureManager.MeetsRequirements | pkg/services/featuremgmt/manager.go:75-85 | no contract of its own: the dev-mode and licence gate; `MeetsRequirementsCases` states both directions |
| FeatureMgmt.MeetsRequirementsCases | pkg/services/featuremgmt/manager.go:75-85 | a flag fails exactly when it needs dev mode and dev mode is off, or it needs a licence and there is no licence service or the service does not enable it |
| FeatureMgmt.MergeNeverRelaxes | pkg/services/featuremgmt/manager.go:56-85 | if the server can run a merged flag, it could run the flag before the merge |
| FeatureMgmt.RegisterAllNeverRelaxes | pkg/services/featuremgmt/manager.go:56-85 | a flag the server cannot run stays one it cannot run across any registrations |
| FeatureMgmt.FeatureManager.TurnsOn | pkg/services/featuremgmt/manager.go:110-140 | no contract of its own: the flag meets its requirements and has a non-empty expression that evaluates to true; `EnabledAfterUpdate` and `Update` rest on it |
| FeatureMgmt.FeatureManager.EnabledAfterUpdate | pkg/services/featuremgmt/manager.go:109-146 | a name is on exactly when its flag meets its requirements and has a non-empty expression that evaluates to true; every value is true |
| FeatureMgmt.FeatureManager.Update | pkg/services/featuremgmt/manager.go:88-147 | the table is unchanged, the manager stays valid, and `enabled` becomes exactly the flags `update` turns on |
| FeatureMgmt.FeatureManager.RegisterFlags | pkg/services/featuremgmt/manager.go:28-72 | the table becomes the definitions registered one after another, and `enabled` is then rebuilt from the new table |
| FeatureMgmt.UpdateTurnsOnExactly | pkg/services/featuremgmt/manager.go:109-146 | after `update`, a name is on exactly when it is in the table, meets its requirements, and has a non-empty expression that evaluates to true; an unknown name is off |
| FeatureMgmt.FeatureManager.IsEnabled | pkg/services/featuremgmt/manager.go:167-169 | no contract of its own: the name is in `enabled` with value true; `UpdateTurnsOnExactly` and `UnknownIsDisabled` state when that holds |
| FeatureMgmt.UnknownIsDisabled | pkg/services/featuremgmt/manager.go:167-169 | `IsEnabled` is false for any name the table does not hold |
| FeatureMgmt.FeatureManager.GetEnabled | pkg/services/featuremgmt/manager.go:172-180 | the result holds exactly the names `IsEnabled` reports on, each mapped to true |
| FeatureMgmt.FeatureManager.GetFlags | pkg/services/featuremgmt/manager.go:183-189 | every definition in the table exactly once, in some order, and nothing else |
| FeatureMgmt.FeatureManager.LookupFlag | pkg/services/featuremgmt/manager.go:192-198 | the stored definition and true when the name is known; otherwise the zero definition and false |
| FeatureMgmt.FeatureManager.WithFeatures | pkg/services/featuremgmt/manager.go:205-227 | one flag per key read from the arguments, with its last value; `enabled` holds the keys read with value true |
| FeatureMgmt.ReadFeatures | pkg/services/featuremgmt/manager.go:206-224 | the argument loop builds exactly the flag table and the on-map of the key/value pairs it reads |
| FeatureMgmt.ItemKey | pkg/services/featuremgmt/manager.go:212-215 | no contract of its own: the text `%v` prints for an argument |
| FeatureMgmt.Entries | pkg/services/featuremgmt/manager.go:211-218 | no contract of its own: the key/value pairs the argument loop reads; `EveryValueIsAKey` states how |
| FeatureMgmt.FeaturesOf | pkg/services/featuremgmt/manager.go:220 | no contract of its own: one flag per key, folded in order; `FeaturesOfLastWins` and `FeaturesOfKeys` state it |
| FeatureMgmt.EnabledOf | pkg/services/featuremgmt/manager.go:221-223 | no contract of its own: the keys read with value true; `EnabledOfSomeTrue` states it |
| FeatureMgmt.EveryValueIsAKey | pkg/services/featuremgmt/manager.go:211-218 | every non-bool argument is read as a key, with the bool right after it as its value, or true when there is none |
| FeatureMgmt.EnabledOfSomeTrue | pkg/services/featuremgmt/manager.go:220-223 | a key is on exactly when some occurrence of it was read with value true |
| FeatureMgmt.FeaturesOfLastWins | pkg/services/featuremgmt/manager.go:220 | a key's flag carries the value of its last occurrence |
| FeatureMgmt.FeaturesOfKeys | pkg/services/featuremgmt/manager.go:212-220 | the table holds exactly the keys read |
| FeatureMgmt.WithFeaturesKeepsEarlierTrue | pkg/services/featuremgmt/manager.go:220-223 | for `"a", true, "a", false`, flag `a` has value false yet `a` stays on |
| FeatureMgmt.FeatureManager.WithFeatureFlags | pkg/services/featuremgmt/manager.go:232-246 | the table holds the definitions with a non-empty name, the last one per name, and `enabled` records each one's own value |
| FeatureMgmt.DefsTable | pkg/services/featuremgmt/manager.go:237-242 | no contract of its own: the named definitions folded in order; `DefsTableValid` and `DefsTableLastWins` state it |
| FeatureMgmt.DefsEnabled | pkg/services/featuremgmt/manager.go:237-242 | no contract of its own: each named definition's own value; `DefsTableValid` states it |
| FeatureMgmt.DefsTableValid | pkg/services/featuremgmt/manager.go:237-242 | the empty name is never stored; both maps have the same names, and each recorded value is the stored definition's |
| FeatureMgmt.DefsTableLastWins | pkg/services/featuremgmt/manager.go:241 | a name's entry is the last definition carrying it |
| DashboardChanges.DeepEqual | public/app/features/dashboard-scene/saving/getDashboardChanges.ts:22-28 | no contract of its own: the same kind, and equal strings or equal arrays element by element; `DeepEqualIsEquality` proves it is equality |
| DashboardChanges.DeepEqualIsEquality | public/app/features/dashboard-scene/saving/getDashboardChanges.ts:22-28 | two texts or values are deep-equal exactly when they are equal: the same kind, and equal strings or equal arrays element by element |
| DashboardChanges.IsEqual | public/app/features/dashboard-scene/saving/getDashboardChanges.ts:30-32 | no contract of its own: the same option, or both present with the same `selected`, text and value; `IsEqualIsEquality` proves it is equality |
| DashboardChanges.IsEqualIsEquality | public/app/features/dashboard-scene/saving/getDashboardChanges.ts:30-32 | two options are equal exactly when both are absent, or both are present with the same `selected`, text and value |
| DashboardChanges.HasTimeChanged | public/app/features/dashboard-scene/saving/getDashboardChanges.ts:77-79 | no contract of its own: `from` or `to` differ under optional chaining; `HasTimeChangedIsInequality` proves it is inequality |
| DashboardChanges.HasTimeChangedIsInequality | public/app/features/dashboard-scene/saving/getDashboardChanges.ts:77-79 | the time has changed exactly when the two time ranges differ in `from` or `to`, or only one is present |
| DashboardChanges.FiltersOutcome | public/app/features/dashboard-scene/saving/getDashboardChanges.ts:81-98 | throws exactly when either side has no filters; otherwise true exactly when the filter lists are equal |
| DashboardChanges.AdHocVariableFiltersEqual | public/app/features/dashboard-scene/saving/getDashboardChanges.ts:81-98 | throws the missing-filter error exactly when either side has no filters; otherwise true exactly when the lengths agree and every pair matches on key, operator and value |
| DashboardChanges.MatchIndex | public/app/features/dashboard-scene/saving/getDashboardChanges.ts:106 | the index found is within the originals; `MatchIndexIsFirst` states which one it is |
| DashboardChanges.MatchIndexIsFirst | public/app/features/dashboard-scene/saving/getDashboardChanges.ts:106-110 | `find` gives the first original with the variable's name and type, and nothing only when none has them |
| DashboardChanges.MatchIndexOfSameVars | public/app/features/dashboard-scene/saving/getDashboardChanges.ts:106 | `find` gives the same answer on two lists that agree on names and types, such as the originals before and after stripping |
| DashboardChanges.StripSelected | public/app/features/dashboard-scene/saving/getDashboardChanges.ts:113-115 | the original keeps its name and type, and its current option no longer has `selected` |
| DashboardChanges.StripSelectedIdempotent | public/app/features/dashboard-scene/saving/getDashboardChanges.ts:113-115 | stripping twice is stripping once, so an original matched twice ends the same |
| DashboardChanges.CompareOutcome | public/app/features/dashboard-scene/saving/getDashboardChanges.ts:117-124 | no contract of its own: a changed current option answers true, an ad hoc comparison may throw or answer true, otherwise the answer so far stands; `AppliedThrows` and `AppliedAnswers` state the loop's outcome |
| DashboardChanges.Restored | public/app/features/dashboard-scene/saving/getDashboardChanges.ts:126-134 | no contract of its own: an ad hoc variable takes the original's filters, any other its current option and options; `AppliedRestores` states it of the loop |
| DashboardChanges.ApplyStep | public/app/features/dashboard-scene/saving/getDashboardChanges.ts:105-135 | no contract of its own: one pass of the loop over the lists as they were before it; the `Applied` lemmas below state the fold of these passes |
| DashboardChanges.Applied | public/app/features/dashboard-scene/saving/getDashboardChanges.ts:105-135 | the fold of the first passes keeps both lists' lengths |
| DashboardChanges.AppliedTracks | public/app/features/dashboard-scene/saving/getDashboardChanges.ts:105-134 | after any number of passes, the variables not yet visited are as they were, and each original is as it was or stripped |
| DashboardChanges.AppliedStaysThrown | public/app/features/dashboard-scene/saving/getDashboardChanges.ts:117-124 | once a comparison has thrown, later passes change nothing |
| DashboardChanges.AppliedThrows | public/app/features/dashboard-scene/saving/getDashboardChanges.ts:117-124 | the loop throws exactly when some matched ad hoc variable with an equal current option lacks filters on either side; the error is the missing-filter one |
| DashboardChanges.AppliedAnswers | public/app/features/dashboard-scene/saving/getDashboardChanges.ts:117-124 | when it does not throw, the answer is true exactly when some matched variable's current option differs from the stripped original's, or the variable is ad hoc with unequal filters |
| DashboardChanges.AppliedStrips | public/app/features/dashboard-scene/saving/getDashboardChanges.ts:105-115 | unless the loop threw, every matched original has lost `selected`; an original nothing matched is untouched |
| DashboardChanges.AppliedKeeps | public/app/features/dashboard-scene/saving/getDashboardChanges.ts:105-110 | a variable without an original of its name and type is never modified, and with `saveVariables` set no variable is |
| DashboardChanges.AppliedRestores | public/app/features/dashboard-scene/saving/getDashboardChanges.ts:126-134 | without `saveVariables`, unless the loop threw, a matched ad hoc variable takes the original's filters and any other matched variable takes its current option and options |
| DashboardChanges.ApplyPass | public/app/features/dashboard-scene/saving/getDashboardChanges.ts:105-135 | one pass on the dashboards' lists gives exactly the lists and outcome of `ApplyStep` on the lists as they were before the loop |
| DashboardChanges.ApplyVariableChanges | public/app/features/dashboard-scene/saving/getDashboardChanges.ts:100-138 | the result and both dashboards' variable lists are those of the fold over the lists as they were before the loop; nothing else on either dashboard changes |
| DashboardChanges.DiffCount | public/app/features/dashboard-scene/saving/getDashboardChanges.ts:60 | no contract of its own: the lengths of the diff's arrays added up from first to last; `DiffCountBounds` states what the sum tells |
| DashboardChanges.DiffCountBounds | public/app/features/dashboard-scene/saving/getDashboardChanges.ts:60 | the diff count is zero exactly when every array of the diff is empty, and it is at least the length of each |
| DashboardChanges.GetDashboardChanges | public/app/features/dashboard-scene/saving/getDashboardChanges.ts:34-75 | time and refresh changes are measured before anything changes; the migrated time and refresh are put back unless saved; `hasChanges` holds exactly when some diff array is non-empty; `isNew` holds exactly when the version is 0; a throw from the filter comparison leaves time and refresh alone |

## Left out

- The expression engine (CEL) in `update`, and the variables it evaluates over, are left out. They are a foreign library, so `eval: string -> bool` stands for a successful evaluation of one expression. The failure path is left out too: when compiling or running an expression fails, Grafana's code logs the error and goes on calling into the values the failed calls returned, so the outcome is the library's (or a nil-pointer panic), not a modelled value.
- The Prometheus metric, `fmt.Printf`, logging, `readFile` and `readConfigFile` are left out: they are I/O. `registerFlags` is modelled with its `update` call.
- FeatureMgmt.FeatureManager.WithFeatureFlags: Grafana's code stores the caller's pointers, so a later change to a definition shows in the manager. The model stores copies. A nil element of `flags` panics in Grafana's code (pkg/services/featuremgmt/manager.go:238 reads `f.Name`); the model's definitions are values, so that case cannot arise in it.
- FeatureMgmt.FeatureManager.GetFlags: Go's map order is not modelled. The result is any order that lists each definition once.
- Flag stages other than `FeatureStageUnknown` are told apart only by name. `WithFeatures` keys are given by the text `%v` prints.
- FeatureMgmt.FeatureManager.WithFeatures: the panics are not modelled. In Grafana's code a nil argument right after a key panics (pkg/services/featuremgmt/manager.go:215 asks for the kind of a nil type), and so does a value of a named bool type (pkg/services/featuremgmt/manager.go:216 asserts the plain `bool` type). The model reads both as keys carrying their printed text.
- `jsonDiff` and the JSON source map are not modelled; they are foreign. The diff is a parameter returning one array of changes per changed path. The dynamic `get` helper and `getPanelChanges` are not part of this model.
- DashboardChanges.GetDashboardChanges: it requires the changed and migrated dashboards to be two objects, and `applyVariableChanges` likewise requires two. JavaScript allows the same object twice; the model does not cover that aliasing.
- DashboardChanges.ApplyVariableChanges: each dashboard's `templating.list` is a value of its own, and so is each variable in it. In JavaScript the two dashboards may share one list or some variable objects, and a change made through one reference then shows through the other; the model does not cover that aliasing.
- DashboardChanges.IsEqualIsEquality: the `a === b` reference test is modelled as value equality. A variable option here holds only `selected`, text and value.
- Variables are modelled by name, type, current option, options and filters, and filters by key, operator and value. Other properties are not modelled.
- DashboardChanges.GetDashboardChanges: a dashboard is modelled by its time, refresh, version and `templating` list only. Panels and every other dashboard property are not in `Dashboard`, so the diff the model hands out can depend only on those four fields.
- The entity store's real SQL execution, the drivers, `sqlmock`, `createETag` and `getCurrentUser` are left out. The database is a parameter giving, for a text and arguments, an error or the rows. Each row's scan outcome and results are given in advance.
- SqlTemplate.FormatSQL: its implementation is not part of this model, and the test fixes one input and its output only. The token classes (blank space, `;`, operator characters, everything else), the operator characters and the clause keywords FROM, WHERE, GROUP, HAVING, ORDER, LIMIT and OFFSET are this model's choices, so its general lemmas hold of this normaliser, not necessarily of Grafana's. Quoted literals are not recognised: `SELECT 'a  b'` formats to `SELECT 'a b'`.
- The `text/template` engine is left out. A template's rendering is a partial function: None stands for a data value the template cannot render.
- SqlStash.QueryRow: the tests never run `queryRow` on zero rows. The model gives Go's `sql.ErrNoRows` there.
- SqlStash.Query: `GetArgs` is modelled as returning the given `args`; the mocks' expectations (`Once` on the successful paths, no call after a template failure, `GetScanDest` then `Results` per row) are the returned call list. The text handed to the database is the rendered text; whether the implementation formats it first is not part of this model.
- SqlStash.Query: when the database call fails, the call list `[GetArgs]` is this model's choice. The test of that path allows `GetArgs` more than once and a `GetScanDest` call (utils_test.go:254-255), so building the `SQLError` may ask the request again; the model does not promise what Grafana's code calls there.
- SqlStash.QueryRow: the same holds when its database call fails (utils_test.go:334-335).
- SqlStash.Exec: the same holds when its database call fails, where the test allows `GetArgs` more than once (utils_test.go:462).
- Error messages are modelled only by the phrases the tests check. `ExecuteTemplate` opens with "execute template" and `RowResults` with "row results". Other wording is not modelled.
- SqlStash.ScanRows: every failing row's error is wrapped as `RowResults`, a scan failure included. The tests check the "row results" phrase only for a failure of `Results` (utils_test.go:276-283); whether `query` or `scanRow` adds it, and whether a scan failure gets it, is this model's choice.
- SqlStash.CountTrueCounts: does not model the `uint64` wrap-around, because the count cannot exceed the number of arguments.
- SqlTemplate.SQLTemplate.Into: the column name is accepted and not stored; no visible code reads it back.
- The `rowLockingClauseAll` map is defined outside the visible source. It is modelled as the map that emits every clause as requested.
- The other dialect methods (identifier quoting, placeholder rendering) are not part of this model.
