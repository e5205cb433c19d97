# wall-bot-plugin in Dafny

A Dafny model of the Koishi plugin `wall-bot-plugin`. The plugin keeps a "wall":
records that attribute a remark to a named idol, scoped to a chat guild and to a
game version. It also draws per-version statistics. The model covers:

- the plugin's commands over its two tables, `wall6.idols_1_0_0` and
  `wall6.records_1_0_0` (`src/index.ts`):
  - adding a record, with lookup-or-create of its idol;
  - the batch import;
  - the records listing;
  - delete by id;
  - the statistics bucketing (group, partition per version, stable sort, top 4 plus
    `Others`);
- the startup schema logic of `src/model.ts`: `apply`, `upgradeDatabase` and
  `createDatabase`.

Modules:

- `Wrappers` (`wrappers.dfy`): `Option`.
- `JsString` (`jsstring.dfy`): the JavaScript built-ins the code relies on.
  - `split` on one character, and `join`.
  - `trim` over the WhiteSpace and LineTerminator characters of ECMA-262.
  - The decimal text of a non-negative integer.
  - Lemmas: split and join are inverses, and the decimal text reads back as the
    number.
- `Bucketing` (`bucketing.dfy`): the statistics pipeline of `南墙统计`.
  - The grouped count is a function of the joined rows.
  - `versionMap` is filled by a loop (`Partition`).
  - `data.sort` is an in-place stable insertion sort on an `array`
    (`SortInPlace`), proved equal to the functional `SortDesc`.
  - Each dataset is built by `BuildDataset`, and the datasets by a loop in
    `BuildDatasets`.
- `Model` (`model.dfy`): the table declarations.
  - `ctx.model.extend` merges a declaration into a map of tables.
  - The meta rows are a map from id to `database_version`.
  - `apply` and `createDatabase` are methods of the class `Registry`.
  - `upgradeDatabase` is a step function, followed to a recursion depth.
- `Store` (`store.dfy`): the class `WallStore`.
  - It holds the idols and records tables as sequences, with their auto-increment
    counters.
  - The commands are its methods.
  - The query logic is functions, with lemmas about them.

What the code does, as opposed to what a migration-chain design would promise:

- `upgradeDatabase` never returns for a stored version other than `'1_0_0'`. Its only
  `switch` case is `'1_0_0'`, which is `latestVersion` and so is never reached. Every
  other version maps to itself, so the call recurses on the same argument without
  end. No unknown version is rejected with an error.
- No path writes the meta row. `database_version` is never set, so a store that has
  been started once still has no meta row at the next start.
- Startup is therefore one of three outcomes:
  - create (meta row 1 absent);
  - return at once (row present and equal to `'1_0_0'`);
  - non-termination (any other stored value, `null` included).
- `versionMap` in `南墙统计` is a plain object literal, so it inherits the properties of
  `Object.prototype`. A record whose version is one of their names (`constructor`,
  `toString`, `__proto__`, and so on; a batch-import line `a,b,constructor` stores
  one) finds a truthy non-array there, and `.push` throws. The command then fails
  for that guild until the record is deleted.

Adding, importing, listing and the statistics take the guild id from the session; a
missing or empty guild id becomes `"console"`. Delete and rebuild are not scoped to a
guild: `删除南墙记录` removes the record of that id whichever guild it belongs to, and
the rebuild hook drops both tables for every guild. `options.id` follows JavaScript truthiness, so an id of 0 counts as
missing and nothing is deleted. Everything that reads a clock or the network is an
argument: the session timestamp, the prompt's text, and the configured
`genshin_version`.

## Model

| member | source | states |
|---|---|---|
| Store.GuildOf | src/index.ts:65 | a present, non-empty session guild id is the guild; a missing or empty one gives `"console"`; the guild is never empty |
| Store.FindIdol | src/index.ts:67-70 | the result is the index of the first idol with that nickname and guild; it is None exactly when no idol matches |
| Store.WallStore.LookupOrCreateIdol | src/index.ts:72-86 | there are exactly two cases. If an idol matches, it is reused and nothing changes. Otherwise exactly one idol is appended: recording, with the next id. The invariant is kept: idol ids increase, no two idols share (nickname, guild), every record resolves to an idol of its guild |
| Store.WallStore.AppendRecord | src/index.ts:88-96 | `create` on the records table: exactly one record is appended, with the next record id and the given idol, description, time, guild and version; the record counter rises by one, idols and the idol counter are unchanged, and the invariant is kept |
| Store.WallStore.constructor | src/model.ts:77-125 | a fresh store has both tables empty and both auto-increment counters at 1, and the invariant holds |
| Store.WallStore.AddToWall | src/index.ts:65-96 | the new tables and counters are exactly `AddStep` of the old ones: one record appended with the next record id, for the matching idol or else for one new recording idol with the next idol id. That record's `idol_id` is the idol's, its `desription` the message, its time the session timestamp, its guild the session's, its version the configured one. An idol is created only when none matched, so sequential adds never duplicate an idol |
| Store.ParseLineFields | src/index.ts:185-189 | each of the three fields of a parsed line is trimmed and holds no `,` |
| Store.ParseLineText | src/index.ts:185-189 | a line written as `name,description,version` from trimmed, comma-free fields parses back to exactly those fields |
| Store.ImportLines | src/index.ts:184 | the text splits into one line per `\n` plus one, and no line holds a `\n` |
| Store.WallStore.BatchImport | src/index.ts:181-221 | with no text or an empty one, nothing changes, counters included. Otherwise the new tables and counters are exactly `ImportSeq` of the old ones over the parsed lines, in line order. The old records and idols stay prefixes, and the new records are exactly what each parsed line makes |
| Store.WallStore.ImportOne | src/index.ts:185-220 | one line is one `AddStep` with no time: the idol the line names is reused when found in the caller's guild, or else exactly one recording idol is appended with the next idol id; one record with the next record id is appended, its description and version from the line |
| Store.WallStore.ImportAll | src/index.ts:184-218 | the lines are imported in order: the new tables are `ImportSeq` of the old ones, the old rows stay, and record k is what parsed line k makes |
| Store.ParseLine | src/index.ts:185-189 | the three fields of a line, split on `,` and trimmed; its properties are stated by `ParseLineFields` and `ParseLineText` |
| Store.AddStepFacts | src/index.ts:72-96 | one add keeps every row, appends exactly one record with the next record id, and appends at most one idol, advancing the idol counter with it |
| Store.ImportSeqRecords | src/index.ts:184-218 | the import keeps every old row, appends one record per line with consecutive ids from the record counter, and advances the idol counter once per idol created |
| Store.ImportSeqIdols | src/index.ts:191-207 | every idol the import appends is recording, of the caller's guild, has the next consecutive idol id, and carries the name of some line for which no idol of that name existed before the import |
| Store.ImportedAllPointwise | src/index.ts:184-220 | record k of the import has the description and version of line k, no time, the caller's guild, and an idol named by line k in that guild |
| Store.JoinedMembers | src/index.ts:112 | a pair is in the join exactly when its idol and record are both stored and `records.idol_id = idols.id` |
| Store.SelectListingsMembers | src/index.ts:118-134 | a listing is selected exactly when it is the projection of a joined pair that passes the three filters |
| Store.ListingsSoundAndComplete | src/index.ts:110-134 | a listing is returned exactly for each stored idol and record that join and meet three filters: the record's guild is the caller's; the version is the argument, falling back to the configured one, and is not filtered when it is `'all'`; the nickname matches when a non-empty name is given |
| Store.RecordsReplyLines | src/index.ts:136 | the reply is `""` for no listing. Otherwise, when no name or description holds a `\n`, the reply splits back into exactly one formatted line per listing, in order |
| Store.FormatListing | src/index.ts:136 | one listing as `[ID: <id> ]<name> <description>`; `RecordsReplyLines` states how the reply splits back into these lines |
| Store.RecordsReply | src/index.ts:136 | the formatted listings joined by `\n`; `RecordsReplyLines` states it |
| Store.WallStore.ListRecords | src/index.ts:109-139 | the reply of `南墙记录` over the store: the selected listings formatted and joined. Which listings are selected is stated by `ListingsSoundAndComplete`; the reply text by `RecordsReplyLines` |
| Store.StatRowsIsolated | src/index.ts:236-238 | the statistics rows depend only on the records of the caller's guild |
| Store.PairsOfUnique | src/index.ts:237 | in a valid store each record joins exactly one idol, and that idol is of the record's guild |
| Store.StatRowsCountRecords | src/index.ts:236-243 | in a valid store, the caller's rows of a version are as many as the guild's records of that version |
| Store.WithoutIdMembers | src/index.ts:153 | removing by id keeps exactly the records whose id differs |
| Store.WithoutId | src/index.ts:153 | `remove` by id; `WithoutIdMembers`, `WithoutIdValid` and `WithoutIdSame` state what it keeps |
| Store.WithoutIdValid | src/index.ts:153 | removing by id keeps the table valid: ids still increase and every record still resolves |
| Store.WithoutIdSame | src/index.ts:153-157 | when no record has the id, removal leaves the table as it was |
| Store.WallStore.Delete | src/index.ts:152-166 | without an id, or with id 0, nothing is removed. Otherwise the records of that id are removed, and the outcome is "not found" exactly when none had it. Idols and counters are untouched |
| Store.WallStore.Statistics | src/index.ts:236-293 | the query result may come in any order. The command throws exactly when the guild has a record whose version names a property inherited from `Object.prototype`. Otherwise there is one dataset per version of the result, and those are exactly the versions the guild has records of. Dataset k is the top-4-plus-Others dataset of version k's bucket. It has at most five values and as many labels. Its values sum to the guild's record count for that version |
| Store.WallStore.Rebuild | src/index.ts:47-52 | both tables are emptied, both counters go back to 1, and the startup runs again. The reply is sent exactly when that startup returns |
| Bucketing.GroupCountsExact | src/index.ts:239-243 | the grouped count has distinct (nickname, version) keys. Every count is at least 1. Each key's count is its number of rows |
| Bucketing.BucketTotalIsVersionCount | src/index.ts:239-256 | the counts in a version's bucket add up to the number of rows of that version |
| Bucketing.BucketSumPermutation | src/index.ts:244 | reordering the query result, as `orderBy` does, changes no bucket's total |
| Bucketing.ResultBuckets | src/index.ts:236-256 | for the grouped count in any order, a version has a bucket exactly when some row has that version. That bucket's counts add up to the version's row count |
| Bucketing.GroupCounts | src/index.ts:236-243 | the grouped count of the joined rows; `GroupCountsExact` states its keys and counts |
| Bucketing.VersionsOfFacts | src/index.ts:252-254 | the bucket versions are distinct, and they are exactly the versions of the result |
| Bucketing.Partition | src/index.ts:248-256 | the loop throws exactly when some row's version names a property inherited from `Object.prototype` (`versionMap` is truthy there but not an array). Otherwise it builds `versionMap` with exactly the result's versions as keys, in first-seen order, each mapped to the entries of that version in result order |
| Bucketing.AddRow | src/index.ts:251-256 | one row creates its version's bucket when missing and pushes its entry, keeping `versionMap` equal to the buckets of the rows seen so far |
| Bucketing.HitsPrototypeVersions | src/index.ts:248-255 | the loop hits an inherited property exactly when one of the result's versions is such a name |
| Bucketing.SortDescPermutes | src/index.ts:263 | the sort is a permutation of the bucket |
| Bucketing.SortDescSorted | src/index.ts:263 | the sort orders the bucket by count, descending |
| Bucketing.SortDescStable | src/index.ts:263 | the sort is stable: for every count, the entries with that count keep their relative order |
| Bucketing.SortDescTotal | src/index.ts:263 | the sort keeps the bucket's total |
| Bucketing.SortInPlace | src/index.ts:263 | the in-place insertion sort on the array leaves exactly `SortDesc` of its old contents |
| Bucketing.InsertLast | src/index.ts:263 | one pass of the in-place sort inserts element i into the sorted prefix, and the rest of the array is unchanged |
| Bucketing.DatasetConservesTotal | src/index.ts:266-278 | a dataset has as many labels as values and at most five of each. Its values sum to the bucket's total, so folding into Others loses nothing |
| Bucketing.OthersExactlyBeyondFour | src/index.ts:266-278 | with counts of at least 1, Others is present exactly when the bucket has more than four entries. In that case it is the fifth value, labelled `Others (v<version>)` |
| Bucketing.DatasetOf | src/index.ts:266-278 | the top-4-plus-Others dataset of a bucket; `DatasetConservesTotal`, `OthersExactlyBeyondFour`, `DatasetPrefix` and `KeptDominateFolded` state its properties |
| Bucketing.DatasetPrefix | src/index.ts:263-273 | whether or not an Others entry follows, the first values and labels of a version's dataset are those of the first entries of the descending sort, and the title is `Version <version>` |
| Bucketing.KeptDominateFolded | src/index.ts:263-273 | the first values are the first four of the stable descending sort, labelled `<name> (v<version>)`, under the title `Version <version>`. Each of them is at least every count folded into Others |
| Bucketing.BuildDataset | src/index.ts:261-281 | the version's array is left sorted, and the dataset built equals `DatasetOf` of the version's bucket |
| Bucketing.BuildDatasets | src/index.ts:248-293 | None exactly when the partition throws. Otherwise one dataset per version of the result, in first-seen order, each `DatasetOf` that version's bucket |
| JsString.JoinSplit | src/index.ts:184-185 | joining the pieces of a split gives back the string |
| JsString.SplitJoin | src/index.ts:136 | splitting a join of separator-free pieces gives back the pieces |
| JsString.TrimWithout | src/index.ts:185 | a character the string lacks is also missing from its trim |
| JsString.Trim | src/index.ts:185 | the trim is a slice of the string that drops only whitespace before and after it, has no whitespace at either end, and leaves an already trimmed string as it is |
| JsString.NatToStringValue | src/index.ts:136 | the decimal text of an id reads back as that id |
| Model.SwitchUnreachableCase | src/model.ts:63-72 | the `switch` is reached only with a version other than `'1_0_0'`, and it leaves every such version unchanged |
| Model.Switch | src/model.ts:68-72 | the `switch` on the version; `SwitchUnreachableCase` states that it moves no version that reaches it |
| Model.IterateFixed | src/model.ts:62-75 | stepping from any version other than `'1_0_0'` never moves and never reaches `latestVersion` |
| Model.UpgradeReturnsOnlyAtLatest | src/model.ts:62-75 | at every recursion depth, `upgradeDatabase` returns exactly when called with `'1_0_0'` |
| Model.UpgradeWithin | src/model.ts:62-75 | `upgradeDatabase` followed for a given recursion depth; `UpgradeReturnsOnlyAtLatest` states when it returns |
| Model.NeverReturnsMeansNoDepth | src/model.ts:54-55 | when meta row 1 holds anything but `'1_0_0'`, the upgrade path returns at no recursion depth |
| Model.StartupOf | src/model.ts:52-58 | the outcome of `apply` from the meta rows; `NeverReturnsMeansNoDepth` and `Registry.Apply` state it |
| Model.AfterApply | src/model.ts:40-60 | the declarations after `apply`; `ApplyDeclarations`, `CreatedRecordsTable` and `ApplyIdempotent` state them |
| Model.ApplyDeclarations | src/model.ts:40-60 | `apply` always declares `wall6.meta` with `database_version`. With meta row 1 present, nothing else is declared. With it absent, the idols and records tables are declared, and the records table has `idol_id` referring to the idols' `id` |
| Model.CreatedRecordsTable | src/model.ts:97-125 | on a store without a records table, the create path declares it with `time` as its only nullable field and every foreign key resolving to a declared field |
| Model.IdolsDeclaration | src/model.ts:78-95 | `nickname` and `guild_id` are non-null, and `isRecording` is a non-null boolean with initial value false |
| Model.ApplyIdempotent | src/model.ts:40-125 | running `apply` a second time against the same meta rows declares nothing new |
| Model.ExtendIdempotent | src/model.ts:42-50 | extending a table twice with the same declaration is extending it once |
| Model.Extend | src/model.ts:42-50 | `ctx.model.extend` of one table, as used at src/model.ts:42, 78 and 97; `ExtendIdempotent` states it |
| Model.Registry.CreateDatabase | src/model.ts:77-125 | the idols table is declared, then the records table, and the meta rows are untouched |
| Model.Registry.Apply | src/model.ts:40-60 | the meta rows are never written. The declarations become `AfterApply` of the old ones. The outcome is create, up-to-date or never-returns, as the meta row decides. A never-returns outcome returns at no recursion depth |

## Left out

- Chart.js, canvas and font rendering, including the datalabels formatter closures: presentation through foreign libraries. The model stops at the datasets' titles, labels and values.
- Koishi command registration, options, usage text, the `Config` schema and the reply strings: framework glue. Outcomes are result values (`Option`, `DeleteOutcome`, `Startup`). The rebuild hook's reply text is kept, but its matching on the message text is not modelled.
- Concurrency. The batch import's `map(async …)` is never awaited, so in the real code the lines race and can create duplicate idols for one name. The model runs the lines in order. `upgradeDatabase` and `createDatabase` are also called without `await`; the model runs them to completion.
- The database engine's internals, which are modelled as in-memory sequences:
  - the join is in record order;
  - `get` returns rows in insertion order;
  - auto-increment ids start at 1 and rise by one;
  - `drop` resets the counters;
  - `Date` conversion is an integer timestamp.
- Store.WallStore.Statistics: the thrown TypeError is modelled only as the absence of datasets; which row throws and the Koishi error reply are not modelled. The order of `orderBy('count', 'desc')` is not imposed, because its tie order is unspecified. Every property is proved for the query result in any order.
- Bucketing.BuildDatasets: the datasets come in first-seen version order. `Object.entries` puts integer-like keys first (section 10.1.11.1 of ECMA-262, OrdinaryOwnPropertyKeys), so for versions such as `"5"` the real order can differ. Only one dataset per distinct version is promised.
- Store.ParseLine: a line with fewer than three fields yields `undefined` for the missing ones. The model stores `""`, taken as the store's value for a missing non-null string.
- JsString.NatToString: JavaScript number formatting is modelled only for non-negative integer ids. Negative, fractional and `NaN` ids are not modelled, and `-i` takes an integer.
- Model.UpgradeWithin: the unbounded recursion, a stack overflow in the real code, is modelled as never returning within any finite depth.
- Model.Merge: how `ctx.model.extend` merges a declaration into an existing one is assumed. Fields and foreign keys are united, with the new declaration winning.
