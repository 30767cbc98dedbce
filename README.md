# Decision-file explorer: tree provider model

This project models the tree data provider of an editor extension that
shows decision-model (DMN) files. At the root of the tree it lists the
`.dmn` files of the first `file:` workspace folder, sorted with a
comparator that puts directories first and compares names only between
rows of the same type. That comparator answers inconsistently for two
different non-directory types. On such input the engine's sort need not
order same-type rows by name: see "## Findings". Expanding a
decision file `X.dmn` lists its fixture folder `X-tests`. A fixture
folder that cannot be read gives no children, except on macOS, where
the promise never settles (see `normalizeNFC` under "## Left out").

The model also covers the small rules around that provider:
- the translation of Node file-system error codes into editor error kinds;
- the classification of a stat result into a file type;
- the loop that pairs each listed name with its type;
- the escaping of double quotes in the JSON body of the context-test request.

Modules:

- `Wrappers` (`wrappers.dfy`): `Option` and `Result`.
- `Strings` (`strings.dfy`): the JavaScript string built-ins the provider calls: `endsWith`, `lastIndexOf`, `substring`, and a stand-in for `localeCompare`.
- `NodeFs` (`node_fs.dfy`): the helper namespace `_` and `FileStat.type`. The file system is a value: for each path, the outcome `fs.readdir` reports and the result `fs.statSync` returns.
- `FileExplorer` (`file_explorer.dfy`): `FileSystemProvider`. It holds `_readDirectory` as a loop, the root listing's filter and in-place sort, the fixture-folder derivation and `getChildren`.
- `Envelope` (`envelope.dfy`): the quote escaping and the JSON envelope built in `testContext`.

`getChildren` returns a promise. The model gives what that promise settles to:
- `Resolved(entries)`;
- `ResolvedUndefined`, when workspace folders exist but none has the `file` scheme, so the root branch falls off the end of the function;
- `Rejected(error)`, when the root folder cannot be listed. The root branch does not catch this error. The fixture branch catches every failure.

## Model

| member | source | states |
|---|---|---|
| `Strings.LastIndexOf` | src/fileExplorer.ts:241 | the result is -1 exactly when the character is absent; otherwise it is a position holding the character with no occurrence after it |
| `NodeFs.StatType` | src/fileExplorer.ts:108-110 | the type the stat result supports that comes first in the order File, Directory, SymbolicLink, Unknown; every earlier type is unsupported |
| `NodeFs.StatTypeUnique` | src/fileExplorer.ts:108-110 | any type that is supported, with no supported type before it, is the classification |
| `NodeFs.EmptyStatsIsUnknown` | src/fileExplorer.ts:76-82 | a path `statSync` cannot stat (an empty `fs.Stats` is used instead) is classified Unknown |
| `NodeFs.MassageErrorAsWritten` | src/fileExplorer.ts:24-42 | ENOENT gives FileNotFound, EISDIR gives FileIsADirectory, EEXIST gives FileExists, EPERM/EACCESS/EBUSY give NoPermissions; any other code leaves the error unchanged |
| `NodeFs.AsWrittenMissesEacces` | src/fileExplorer.ts:37 | Node's permission code EACCES passes through the code tests as written untranslated, and the corrected translation maps it to NoPermissions |
| `NodeFs.MassageError` | src/fileExplorer.ts:24-42 | the same table with EACCES in place of EACCESS; codes outside the table leave the error unchanged |
| `NodeFs.Readdir` | src/fileExplorer.ts:16-22 | a path the file system does not know rejects with FileNotFound; listed names pass through unchanged; any other failure rejects with the error as `massageError` translates it, so a rejection is already translated |
| `NodeFs.Stat` | src/fileExplorer.ts:74-85 | the stat result of a known path; a path `statSync` cannot stat gives stats classified Unknown, never a rejection |
| `NodeFs.MassageErrorIdempotent` | src/fileExplorer.ts:24-42 | translating an already translated error changes nothing (both versions) |
| `FileExplorer.ReadDirectory` | src/fileExplorer.ts:183-198 | a listing failure is passed on unchanged; otherwise exactly one (name, type) pair per listed child, in listing order, the type being that child's stat classification |
| `FileExplorer.FilterDmn` | src/fileExplorer.ts:266 | every row ending in `.dmn` is kept as often as it occurs, and no other row is kept |
| `FileExplorer.Compare` | src/fileExplorer.ts:269-275 | rows of different types never compare equal, and compare below exactly when the left one is a directory; a positive answer means the right row may come first, a non-positive one that the left may |
| `FileExplorer.UnsortedWithoutDescent` | src/fileExplorer.ts:269-275 | the rows `b.dmn` (File), `x.dmn` (Unknown), `a.dmn` (File) show no descent to the comparator and yet are not sorted |
| `FileExplorer.CompareIntended` | src/fileExplorer.ts:269-275 | the consistent comparator: directories first, otherwise by name; a non-positive answer means the left row may come first |
| `FileExplorer.IntendedNoDescentIsSorted` | src/fileExplorer.ts:269-275 | under the consistent comparator, a list with no descent between neighbours (`NoDescentIntended`, the same test as `NoDescent` with the comparator swapped) is ordered pairwise and sorted |
| `FileExplorer.CompareOnlyRanksDirectories` | src/fileExplorer.ts:269-275 | for two rows of different non-Directory types the comparator answers 1 both ways |
| `FileExplorer.SortItems` | src/fileExplorer.ts:269 | the array ends up a permutation of its old contents in which no Directory follows a non-Directory and rows of equal type are in non-decreasing name order |
| `FileExplorer.TestFolder` | src/fileExplorer.ts:241 | the result ends in `-tests`; what precedes it is the prefix of the URI text before its last `.`, or empty when the text has no `.` |
| `FileExplorer.TestFolderOfDecisionFile` | src/fileExplorer.ts:241 | a URI `X.dmn` has the fixture folder `X-tests` |
| `FileExplorer.FirstFileFolder` | src/fileExplorer.ts:262 | none exactly when no folder has the `file` scheme; otherwise the first folder that has it |
| `FileExplorer.RootEntries` | src/fileExplorer.ts:277 | the entries give back the rows' names and types in order, each at the file URI of the root path joined with its name |
| `FileExplorer.FixtureEntries` | src/fileExplorer.ts:253 | the entries give back the rows' names and types in order, each at the fixture folder URI joined with its name |
| `FileExplorer.RootEntriesListing` | src/fileExplorer.ts:277 | a sorted permutation of the filtered rows becomes entries with `fileName` = name, `type` = stat type, `uri` = file URI of the root path joined with the name |
| `FileExplorer.DecisionFileListedOnce` | src/fileExplorer.ts:265-277 | when the listed names are distinct, every listed `.dmn` name appears exactly once among the root entries, with its stat type |
| `FileExplorer.RootChildren` | src/fileExplorer.ts:264-278 | a listing failure rejects with that error; otherwise every entry names a `.dmn` file at root/name with its stat type, the entries are a permutation of the filtered listing, and they are sorted |
| `FileExplorer.FixtureChildren` | src/fileExplorer.ts:239-259 | one entry per row of the fixture folder's listing, in order, at `joinPath(folder, name)`; an empty list when the folder cannot be listed |
| `FileExplorer.GetChildren` | src/fileExplorer.ts:233-282 | with no workspace open the empty list; with an element its fixture listing, never a rejection (where `normalizeNFC` is the identity); at the root undefined without a `file:` folder, a rejection when its listing fails, the sorted decision-file entries otherwise |
| `Envelope.EscapeQuotes` | src/fileExplorer.ts:362 | the length grows by the number of `"` characters, and every `"` in the result is preceded by a backslash |
| `Envelope.UnescapeEscape` | src/fileExplorer.ts:362 | removing the backslash before each escaped quote gives back the original text: no other character changes |
| `Envelope.Envelope` | src/fileExplorer.ts:360-374 | the body starts with the fixed context prefix, ends with `"}` and is as long as prefix, model, one backslash per quote, closing tag and `"}` together |
| `Envelope.EnvelopeEmbedsModel` | src/fileExplorer.ts:360-374 | the text between the prefix and the final `"}` unescapes to the model text followed by `</dmn:definitions>` |

## Left out

- The HTTP relays are network I/O through Node's `http` module: `validateDMN`, the request half of `testContext`, `FileExplorer.openResource` and `DecisionFileExplorer.validateDmn`. Output channels and callbacks go with them.
- `watch`: asynchronous `fs.watch` event plumbing.
- `getTreeItem`, `refreshFile`, `openFolder`, command registration and the `channels` array: editor UI and resource handling.
- `readFile` and `_.readfile` are unused: the provider is never registered as a file system, and the relays read files with `fs.readFileSync`. `_.exists` serves only `watch`.
- The methods that only throw "not implemented" are not modelled. The same goes for `checkCancellation`, which nothing calls, and for console logging. The `existsSync` test in `_readDirectory` only logs.
- `_.stat` calls `statSync`, which follows links, so `FileStat.type` never yields SymbolicLink on this path. The model's stats do not enforce this, and the classification is proved for any stats.
- `normalizeNFC` depends on the platform and on Unicode normalisation. The model treats it as the identity, which it is everywhere but macOS (`darwin`). When `fs.readdir` fails, its callback gets `children` undefined, and `_.readdir` evaluates `normalizeNFC(children)` before `handleResult` runs (src/fileExplorer.ts:67). On macOS that reaches `items.normalize('NFC')` on `undefined` (src/fileExplorer.ts:61), which throws inside the callback, so the promise neither resolves nor rejects. The `[]` that `FixtureChildren` and `GetChildren` give for an unreadable fixture folder, and the rejection `RootChildren` and `GetChildren` give for an unreadable root, therefore hold only where `normalizeNFC` is the identity; on macOS the tree node stays pending. Every File entry is collapsible, so expanding a decision file without an `X-tests` folder hits this.
- `_.readdir` catches a synchronous throw from `fs.readdir` and only logs it, so the promise never settles. The model has no such never-settling outcome.
- URIs are modelled by their `toString()` text. A `file:` URI is `file://` followed by its path. `Uri.parse` is the identity, and percent-encoding is not modelled.
- `path.join` and `Utils.joinPath` are modelled as `dir + "/" + name`, without normalising `.`, `..` or repeated separators.
- `localeCompare` depends on the locale. The model uses a character-by-character lexicographic comparison instead. The sorting proofs use only that it is antisymmetric and transitive, and that it is zero exactly on equal strings.
- SortItems: `Array.prototype.sort` leaves the algorithm to the engine. The order is engine-defined when the comparator is inconsistent, which this one is for two different non-Directory types. The model uses an insertion sort, one order the language admits, and for that sort it proves that same-type rows are ordered by name for every input. The property itself fails for the program on Node: rows `b.dmn` (File), `x.dmn` (Unknown), `a.dmn` (File) show no descent to the comparator, so a run-scanning sort such as V8's keeps them in that order, with the two files out of name order (`FileExplorer.UnsortedWithoutDescent`). A dangling link named `*.dmn` stats as Unknown.
- The source builds the envelope only around a fixed sample model string. The model takes the model text as a parameter. Backslashes are not escaped, so a model containing `\"` would not survive JSON decoding. Only the quote escaping the source performs is modelled.
- `src/DecisionFileExplorer.ts` imports `DecisionTreeProvider` and `Entry` from `src/fileExplorer.ts`, which does not export them. That provider is not part of this model. The model follows `FileSystemProvider` as written.
- RootChildren, GetChildren: a root folder whose listing fails rejects with the error as `massageError` is written, so a Node `EACCES` error is passed on untranslated. The corrected translation of "## Findings" is proved alongside and is not substituted. Their `Sorted` conjunct holds for the model's insertion sort (`SortItems`), not for V8's sort, which can leave same-type rows out of name order (see the `SortItems` line above).
- Where the description and the code differ, the model follows the code:
  - names are compared only between rows of the same type;
  - the fixture folder is derived from the whole URI text up to its last `.`.

## Findings

The model follows the code as written. For each finding, the corrected
definition and its property are proved alongside the as-written one.

| source | as written | input that shows it | evidently intended | confidence | as-written member | corrected member |
|---|---|---|---|---|---|---|
| src/fileExplorer.ts:37 | the permission test compares the code with `EACCESS` | a Node error with code `EACCES` (permission denied), which Node reports and `EACCESS` never matches | EACCES is translated to NoPermissions like EPERM and EBUSY | high (not executed) | `NodeFs.MassageErrorAsWritten` (shown by `NodeFs.AsWrittenMissesEacces`) | `NodeFs.MassageError` |
| src/fileExplorer.ts:269-275 | rows of two different non-directory types each compare greater than the other | rows `b.dmn` (File), `x.dmn` (Unknown, a dangling link), `a.dmn` (File): no neighbour compares below the one before it, so a run-scanning sort leaves the files out of name order | a consistent comparator, directories first and otherwise by name, under which every sort yields a sorted list | medium (not executed; the engine's sort is read, not run) | `FileExplorer.Compare` (shown by `FileExplorer.UnsortedWithoutDescent`) | `FileExplorer.CompareIntended` (proved by `FileExplorer.IntendedNoDescentIsSorted`) |
