# Project finder and ranker of cheetah-for-raycast, in Dafny

cheetah-for-raycast is a Raycast extension that opens local code projects.
Its engine walks the workspace directories named in the preferences. Every
directory holding a `.git` entry becomes a project record. The engine then
labels each project by the files it holds ("rust", "react_ts", "hexo",
...), merges launch counts and chosen editors from the stored cache, and
ranks the records against the search keyword.

This model covers the engine in `src/lib/utils.ts` and the records of
`src/lib/type.ts`:

- `types.dfy`: the records `ChildInfo`, `Project` and `Config`. The field
  `type` is called `projectType`, because `type` is a reserved word in Dafny.
- `text.dfy`: ASCII case folding, and the case-insensitive and
  case-sensitive text tests.
- `paths.dfy`: `path.join` as `dir + "/" + name`, `path.dirname` and
  `path.basename`.
- `patterns.dfy`: the piece of regular-expression matching the file-name
  tests use. Each tested name becomes an anchored, case-insensitive pattern
  built from literal characters, `.` (any character except a line
  terminator) and `X*`.
- `classifier.dfy`: `findFileFromProject`, `findDependFromPackage`,
  `getDependList` and `projectTypeParse`, with the facts about the rule order
  in `ClassifierFacts`.
- `submodules.dfy`: the `.gitmodules` scanner behind `findSubmodules`.
- `walker.dfy`: `findProject` over an abstract file system. There is a
  recursive function `Walk` that specifies it, and an imperative
  `FindProject` and `FindEach` proved equal to it.
- `cache.dfy`: `combinedEditorList`, the configuration `writeCache` writes,
  and `combinedCache`. `combinedCache` updates an array in place.
- `ranker.dfy`: `filterProject`, with its in-place stable sort.
- `workspace.dfy`: the workspace preference split,
  `replace(/^~/, HOME).split(/,|，/)`.
- `search.dfy`: `batchFindProject`, the walks of every workspace root in
  order.

Files, directory listings and `package.json` manifests are one value,
`Walker.FileSystem`. A path missing from `listings` cannot be listed. Two
reads in the source have no error handler: `.gitmodules` and `package.json`.
When either read fails, `findProject` and `batchFindProject` reject. The
model returns `Err(ReadFailed(path))` in that case and passes it up
unchanged. The MD5 hash of a path and the home directory are parameters.

## Model

| member | source | states |
|---|---|---|
| Text.ContainsFolded | src/lib/utils.ts:226-227 | the keyword filter: the keyword occurs at some offset of the name, comparing ASCII letters without case (the keyword read as literal text) |
| Text.StartsWith | src/lib/utils.ts:234 | `startsWith`: the first characters of the name are exactly the keyword, case-sensitively |
| Text.StartsWithContains | src/lib/utils.ts:225-236 | a name that starts with the keyword (case-sensitively) also contains it case-insensitively, so the prefix tier lies inside the filtered matches |
| Paths.Join | src/lib/utils.ts:99 | `path.join(dir, name)` without normalisation: `dir`, then "/", then `name` |
| Paths.Dirname | src/lib/utils.ts:151 | `path.dirname`: everything before the last "/", or "." when there is none; used only on `dir/.gitmodules`, where it gives `dir` |
| Paths.Basename | src/lib/utils.ts:120 | `path.basename`: the text after the last "/" once trailing slashes are dropped; it never contains "/" |
| Paths.DirnameJoin | src/lib/utils.ts:151 | the directory part of `dir/name` is `dir` when `name` has no slash |
| Paths.BasenameJoin | src/lib/utils.ts:120 | the base name of `dir/name` is `name` when `name` is non-empty and has no slash |
| Patterns.FullMatch | src/lib/utils.ts:158 | the anchored, case-insensitive match of one alternative: literal characters up to ASCII case, `.` for any character but a line terminator, `X*` for any number of matches of `X` |
| Patterns.MatchesAny | src/lib/utils.ts:158-159 | `^(p0\|p1\|...)$` with the `i` flag tests true: some alternative fully matches the name |
| Patterns.StarFreeMatch | src/lib/utils.ts:158-159 | a pattern without `*` fully matches a name iff they have the same length and every pattern character matches the name character at its position |
| Patterns.LiteralMatch | src/lib/utils.ts:158-159 | a pattern of plain letters matches exactly the names equal to it up to ASCII case |
| Patterns.DotStarMatch | src/lib/utils.ts:158 | `.*q` matches `s` iff some prefix of `s` free of line terminators is followed by a full match of `q` |
| Patterns.DotStarSuffixMatch | src/lib/utils.ts:158 | `.*.q`, for a literal `q`, matches exactly the names longer than `q` whose last characters equal `q` up to case and whose other characters are not line terminators |
| Patterns.XcodeprojMatch | src/lib/utils.ts:189 | the `.*.xcodeproj` rule accepts exactly the names of at least 10 characters that end in `xcodeproj`, in any case, with no line terminator before that suffix |
| Classifier.CountMatching | src/lib/utils.ts:158-159 | number of children whose name fully matches one of the alternatives; never more than the number of children |
| Classifier.FindFileFromProject | src/lib/utils.ts:157-162 | the rule holds when the number of children matching the alternation equals the number of names (children are counted, not names) |
| Classifier.CountDepends | src/lib/utils.ts:165-166 | number of dependency names matching one of the alternatives; never more than the number of dependencies |
| Classifier.FindDependFromPackage | src/lib/utils.ts:164-169 | the dependency test holds when at least as many dependency names match the alternation as there are names |
| Classifier.FirstNamed | src/lib/utils.ts:172 | `find` by exact name: `None` iff no child has the name; otherwise the earliest child with the name |
| Classifier.KeysNotIn | src/lib/utils.ts:177-178 | the keys of `b` that are not keys of `a`, which is what the object spread adds after `a` |
| Classifier.DependKeys | src/lib/utils.ts:176-178 | `Object.keys({...dependencies, ...devDependencies})`: the `dependencies` keys in order, then the `devDependencies` keys not already present |
| Classifier.GetDependList | src/lib/utils.ts:171-179 | fails iff there is a `package.json` entry with a non-empty path whose manifest cannot be read, and then names that path |
| Classifier.ProjectTypeParse | src/lib/utils.ts:182-221 | the label is always one of the thirteen labels; it fails iff the chain reaches the manifest read and that read fails |
| ClassifierFacts.CountSingle | src/lib/utils.ts:157-162 | a one-name rule holds iff some child matches the name |
| ClassifierFacts.CountLiteralAtMostOne | src/lib/utils.ts:157-162 | when no two children have names equal up to case, at most one child matches a literal name |
| ClassifierFacts.AndroidRule | src/lib/utils.ts:192-194 | when no two children have names equal up to case, the `app`+`gradle` rule holds iff both an `app` and a `gradle` child exist |
| ClassifierFacts.AndroidRuleCountsChildren | src/lib/utils.ts:161 | the rule counts matching children, not matched names: children `app` and `APP` satisfy `["app", "gradle"]` with no `gradle` present |
| ClassifierFacts.RustDominates | src/lib/utils.ts:183-185 | a directory with a `cargo.toml` child is "rust" whatever other non-`cargo.toml` children it has |
| ClassifierFacts.TwoCargoNotRust | src/lib/utils.ts:161-185 | two children that both match `cargo.toml` fail the count of the Rust rule, so the directory is not "rust" |
| ClassifierFacts.TwoCargoScenario | src/lib/utils.ts:183-185 | `cargo.toml` beside `Cargo.toml` is not labelled "rust" |
| ClassifierFacts.PriorityOrder | src/lib/utils.ts:182-205 | first match wins: each label from "rust" to "vscode" is returned iff its rule holds and every earlier rule fails ("rust" iff the `cargo.toml` rule holds); "unknown" iff no early rule and no `package.json` |
| ClassifierFacts.JavaScriptRules | src/lib/utils.ts:207-218 | inside the `package.json` branch: a react label iff a dependency equals `react` up to case; "hexo" iff no react and a `hexo` dependency; a TypeScript label iff not hexo and `tsconfig.json` is present |
| ClassifierFacts.DependKeysUnion | src/lib/utils.ts:176-178 | the dependency list holds exactly the keys of `dependencies` and of `devDependencies`; when neither list repeats a key, the result repeats none |
| ClassifierFacts.RelevantOnly | src/lib/utils.ts:182-221 | only the children whose names match some tested pattern affect the label |
| ClassifierFacts.SameEvidence | src/lib/utils.ts:182-221 | two directories that agree on every rule and on the first `package.json` entry get the same label |
| ClassifierFacts.RustScenario | src/lib/utils.ts:183-185 | a lone `cargo.toml` gives "rust" |
| ClassifierFacts.ReactTypeScriptScenario | src/lib/utils.ts:207-211 | `package.json` with a react dependency and `tsconfig.json` gives "react_ts" |
| ClassifierFacts.JavaScriptScenario | src/lib/utils.ts:218 | `package.json` without dependencies and without `tsconfig.json` gives "javascript" |
| Submodules.MatchAt | src/lib/utils.ts:146 | one attempt of `(?<=path = )([\S]*)(?=\n)` at a position: it succeeds only after `path = `, with the greedy non-space run followed by `\n`, and then gives the run's length |
| Submodules.ScanFrom | src/lib/utils.ts:146 | the global `match`: after a success the search resumes at the end of the match (one further on for an empty match), after a failure one position further on |
| Submodules.MatchModules | src/lib/utils.ts:146 | `fileContent.match(re) ?? []`: the scan from the start of the text; its values are characterised by `ScanFindsAll`, `MatchModulesSound` and `MatchModulesComplete` |
| Submodules.FindSubmodules | src/lib/utils.ts:144-154 | one entry per captured value, in file order; each is a directory named by the value, with path `dirname(file)/value` |
| Submodules.ScanFindsAll | src/lib/utils.ts:146 | the global scan that resumes after each match finds the same values as testing every position |
| Submodules.MatchModulesSound | src/lib/utils.ts:146 | every value is a whitespace-free run, preceded by `path = ` and followed by `\n` |
| Submodules.MatchModulesComplete | src/lib/utils.ts:146 | every position preceded by `path = ` whose non-space run ends at `\n` yields that run as a value |
| Submodules.NoNewlineNoModules | src/lib/utils.ts:146 | content with no `\n` at all yields no submodules: a value is captured only when a newline follows it |
| Submodules.CrlfNoModules | src/lib/utils.ts:146 | content whose every `\n` follows `\r` yields no submodules |
| Submodules.SubmodulesBesideFile | src/lib/utils.ts:133-152 | the entries read from `dir/.gitmodules` are directories at `dir/name` |
| Submodules.PathLineScenario | src/lib/utils.ts:146 | the line `\tpath = libs/foo\n` yields `libs/foo` |
| Submodules.EmptyPathScenario | src/lib/utils.ts:146 | a line `path = ` captures the empty string |
| Submodules.DotPathScenario | src/lib/utils.ts:146 | a line `path = .` captures "." |
| Walker.Children | src/lib/utils.ts:98-111 | one entry per listed name, in listing order, with path `dir/name` and the directory flag of that path |
| Walker.Dirs | src/lib/utils.ts:130 | the entries that are directories, in order |
| Walker.GitProject | src/lib/utils.ts:118-125 | the record of a repository: id is the hash of its path, name its base name, hits 0, idePath "" |
| Walker.ReadSubmodules | src/lib/utils.ts:133-145 | reading `.gitmodules` fails iff its text is missing; otherwise it gives `FindSubmodules` of that text |
| Walker.Found | src/lib/utils.ts:113-126 | a repository contributes one record: id = hash of its path, name = basename, hits = 0, idePath = "", and its label; a plain directory contributes nothing; a fault only when the label fails |
| Walker.NextLevel | src/lib/utils.ts:128-134 | a plain directory descends into its directory entries; a repository into nothing, or into the submodules of `.gitmodules` when that entry is present |
| Walker.Walk | src/lib/utils.ts:88-141 | `findProject`: an unlistable directory gives no projects; otherwise the directory's own record, then the walks of its next level in order; any fault aborts the walk |
| Walker.WalkSeq | src/lib/utils.ts:136-139 | the walks of `dir/name` for each next-level entry, concatenated in order, stopping at the first fault |
| Walker.ListChildren | src/lib/utils.ts:98-111 | the loop builds one entry per listed name, in listing order, with its joined path and directory flag |
| Walker.FindProject | src/lib/utils.ts:88-141 | the imperative walk returns exactly `Walk` |
| Walker.FindEach | src/lib/utils.ts:136-139 | the loop over the next level returns the concatenated walks of the entries, stopping at the first fault |
| Walker.UnlistableYieldsNothing | src/lib/utils.ts:92-96 | a directory that cannot be listed yields no projects and no fault |
| Walker.WalkSound | src/lib/utils.ts:88-141 | every reported project lies at or below the root, is a repository, carries its own label and is the record `Found` builds |
| Walker.RepositoryFirst | src/lib/utils.ts:117-126 | a repository's own record comes first in its walk |
| Walker.RepositoryStops | src/lib/utils.ts:128-131 | a repository without `.gitmodules` contributes only its own record; its subdirectories are not visited |
| Walker.SubmodulesWalked | src/lib/utils.ts:132-139 | every submodule listed in `.gitmodules` is walked and its projects are included |
| Walker.PlainDirectoryDescends | src/lib/utils.ts:129-139 | every directory entry of a plain directory is walked and its projects are included |
| Walker.ReachableRepositoryReported | src/lib/utils.ts:88-141 | a repository reached through a chain of plain directories is reported |
| Walker.FaultPropagates | src/lib/utils.ts:136-139 | a fault below a visited entry makes the whole walk fail |
| Walker.WalkSeqOk | src/lib/utils.ts:136-139 | the next level succeeds iff the walk of each of its entries does |
| Walker.ReadableWalkSucceeds | src/lib/utils.ts:88-141 | when every listed `.gitmodules` and `package.json` can be read, the walk never fails |
| Cache.TypesOf | src/lib/utils.ts:40 | the set of project types occurring in the cache |
| Cache.CombinedEditors | src/lib/utils.ts:37-46 | the keys are the old keys plus every type of the cache; old keys keep their values; new keys map to "" |
| Cache.CombinedEditorList | src/lib/utils.ts:37-46 | the loop over the cache computes `CombinedEditors` |
| Cache.CombinedEditorsAppend | src/lib/utils.ts:40-44 | extending with two caches in turn equals extending with their concatenation |
| Cache.CombinedEditorsIdempotent | src/lib/utils.ts:37-46 | extending twice with the same cache changes nothing more |
| Cache.WriteCache | src/lib/utils.ts:23-27 | the written configuration holds the new cache and the extended editor map, which has a key for every project type |
| Cache.SignalMap | src/lib/utils.ts:52-57 | `needMergeList`: the stored entries with hits or an editor, keyed by path, a later entry replacing an earlier one |
| Cache.SignalMapSpec | src/lib/utils.ts:52-57 | `needMergeList` holds exactly the paths of stored entries with hits or an editor, each bound to the last such entry |
| Cache.MergeOne | src/lib/utils.ts:59-64 | the merge keeps id, name, path and type |
| Cache.Merged | src/lib/utils.ts:49-66 | the merged list has the length of the scan |
| Cache.CombinedCache | src/lib/utils.ts:49-66 | the in-place loop leaves the array equal to `Merged` of the stored cache and the old contents |
| Cache.MergedItem | src/lib/utils.ts:59-64 | with a matching stored entry, hits become the larger of the two counts and idePath is copied from the last matching entry |
| Cache.MergedUnmatched | src/lib/utils.ts:60-63 | without a matching stored entry, the record is unchanged except that idePath becomes "" |
| Cache.MergedHitsKept | src/lib/utils.ts:62 | merged hits are at least the scanned hits and at least the stored hits of a uniquely matching entry |
| Cache.MergedHitsAtLeastScanned | src/lib/utils.ts:62 | every merged item has at least the hits the scan gave it, whatever the stored cache holds |
| Cache.MergedIdempotent | src/lib/utils.ts:49-66 | merging twice against the same cache changes nothing more |
| Cache.RescanStable | src/lib/utils.ts:49-66 | merging a fresh scan with the cache that stored its own merge gives the stored list back, so counts and editors survive a rescan |
| Cache.ClickCountSurvivesScenario | src/lib/utils.ts:59-64 | a stored count of 5 survives a rescan that reports 0 |
| Ranker.Filter | src/lib/utils.ts:225 | `filter`: the elements the test accepts, in order; never longer than the input |
| Ranker.Insert | src/lib/utils.ts:242-243 | one insertion step of the stable sort: the element goes after every element with at least as many hits |
| Ranker.SortByHits | src/lib/utils.ts:242-243 | the stable sort by hits, most first, as insertion of each element in turn; it keeps the length |
| Ranker.Rank | src/lib/utils.ts:224-245 | `filterProject`'s result: the matches starting with the keyword sorted by hits, then the other matches sorted by hits |
| Ranker.FilterMembers | src/lib/utils.ts:225-228 | the filter keeps exactly the accepted elements |
| Ranker.SortHits | src/lib/utils.ts:242-243 | the in-place insertion sort leaves `SortByHits` of the old contents |
| Ranker.InsertAt | src/lib/utils.ts:242-243 | one insertion step places element `i` into the sorted prefix and leaves the rest alone |
| Ranker.FilterProject | src/lib/utils.ts:224-245 | the method returns `Rank` |
| Ranker.SortPermutes | src/lib/utils.ts:242-243 | the sort is a permutation |
| Ranker.SortSorted | src/lib/utils.ts:242-243 | the sort leaves hits non-increasing |
| Ranker.SortStable | src/lib/utils.ts:242-243 | the sort is stable: elements with the same hits keep their order |
| Ranker.FilterSplits | src/lib/utils.ts:233-239 | the two tiers split the filtered matches between them |
| Ranker.RankPermutes | src/lib/utils.ts:224-245 | the ranking is a permutation of the projects whose names contain the keyword |
| Ranker.RankMembers | src/lib/utils.ts:225-228 | a project is ranked iff it is in the list and its name contains the keyword, ignoring ASCII case |
| Ranker.RankTiers | src/lib/utils.ts:231-244 | the ranking is the names starting with the keyword (case-sensitively), then the other matches |
| Ranker.RankStartersFirst | src/lib/utils.ts:231-244 | a project that starts with the keyword is never ranked below one that does not |
| Ranker.RankOrdered | src/lib/utils.ts:242-243 | within a tier, hits never increase |
| Ranker.RankStable | src/lib/utils.ts:242-243 | within a tier, projects with equal hits keep their input order |
| Ranker.PrefixBeatsHitsScenario | src/lib/utils.ts:241-244 | for keyword `foo`, `foobar` with 1 hit ranks above `barfoo` with 9 |
| Workspace.ExpandHome | src/lib/utils.ts:249 | `replace(/^~/, HOME)`: a `~` at the very start is replaced by the home directory once; any other string is unchanged |
| Workspace.Split | src/lib/utils.ts:249 | splitting always yields at least one piece |
| Workspace.ExpandHomeShape | src/lib/utils.ts:249 | only a leading `~` is replaced by the home directory; the remaining characters follow unchanged |
| Workspace.SplitCount | src/lib/utils.ts:249 | there is one more piece than there are separators |
| Workspace.SplitPiecesClean | src/lib/utils.ts:249 | no piece contains a separator |
| Workspace.JoinSplit | src/lib/utils.ts:249 | joining the pieces with "," gives back the preference string, with full-width commas written as "," |
| Workspace.SplitJoin | src/lib/utils.ts:249 | separator-free pieces joined with "," split back into the same pieces |
| Search.WalkAll | src/lib/utils.ts:251-255 | the walks of the roots, concatenated in order, stopping at the first fault |
| Search.BatchFindProject | src/lib/utils.ts:248-257 | the loop over the workspace roots returns `WalkAll` of the split preference |
| Search.WalkAllOk | src/lib/utils.ts:251-255 | the batch succeeds iff the walk of every root succeeds |
| Search.WalkAllFirstFault | src/lib/utils.ts:251-255 | a failing batch reports the fault of the first root whose walk fails |
| Search.WalkAllMembers | src/lib/utils.ts:251-255 | a successful batch holds exactly the projects the walks of its roots report |
| Search.BatchSound | src/lib/utils.ts:248-257 | every project of the batch is a repository at or below one of the roots |

## Left out

- `src/index.tsx`: the Raycast user interface (list, actions, toasts, React
  state) and its cache-first search glue are not part of this model.
- `readCache`, `readFile` and the file side of `writeCache`
  (`src/lib/utils.ts:23-34`, `69-85`): JSON (de)serialisation, `mkdir` and
  the write are I/O. The configuration is a value. The self-healing branch
  of `readCache`, taken when the error message equals
  "no such file or directory", is not modelled.
- `filterWithCache` and `filterWithSearchResult`
  (`src/lib/utils.ts:260-270`): they are compositions of the modelled
  operations with cache reads and a write that is not awaited.
- `getMd5`: the hash is the parameter `hash: string -> string`.
- `fs.readdirSync`, `fs.statSync`, `getPreferenceValues` and
  `process.env.HOME` are replaced by `Walker.FileSystem`, a `Preferences`
  value and a `home` parameter. Async scheduling is not modelled: the source
  awaits every step in order.
- JSON parsing of `package.json`: a manifest is the key lists of its
  `dependencies` and `devDependencies`. A manifest that cannot be read or
  parsed is missing from `FileSystem.manifests`.
- Regular expressions: file-name patterns support literal characters, `.`
  and `*`, which are the only metacharacters the tested names use. The
  search keyword and dependency names are literal text, where the source
  builds a regular expression from them.
- Case-insensitive comparison folds only ASCII letters. Strings are
  sequences of characters, not UTF-16 code units.
- Paths are joined as `dir + "/" + name` without normalisation, so a
  joined path is always longer than its directory. The walk's termination
  measure counts the listable paths at least as long as the current path,
  and that count drops at every step down. Cycles in the tree are therefore
  not modelled; the source has no cycle detection.
- Walker.Walk: a degenerate submodule line makes the source run forever,
  and the model does not capture that. A `.gitmodules` line `path = ` or
  `path = .` right before the newline captures "" or "."
  (`Submodules.EmptyPathScenario`, `Submodules.DotPathScenario`). `path.join(dir, "")` and
  `path.join(dir, ".")` both return `dir`, so `findProject`
  (`src/lib/utils.ts:133-139`) calls itself on the same repository again
  and never returns. The model instead walks the distinct path `dir/` or
  `dir/.`, which is normally not listable, and finishes. A submodule path
  `..` likewise leads the source back to the parent directory.
- `Types.Project`: `hits` is a natural number (the source's JavaScript
  number is never made negative or fractional by the core).
- Ranker.SortHits: `Array.prototype.sort` is modelled as an insertion
  sort. The language standard requires the sort to be stable since
  ECMAScript 2019, and every stable sort by the same comparison gives the
  same result.
- Cache.MergedHitsKept: the bound on the stored hits is stated only for a
  stored path that occurs once; `Cache.MergedItem` covers the general case
  with the last signalling entry. The bound on the scanned hits holds for
  every item without that condition (`Cache.MergedHitsAtLeastScanned`).
- Workspace: `$` patterns in the replacement string of `replace` are not
  interpreted; the home directory is inserted literally.
