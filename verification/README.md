# Verified model of the openfish backend

This project models the parts of the openfish backend that keep state or decide something hard, and
proves what they promise. Every `.dfy` file is one module, named after what it models.

**Watched indexes.** `Watch` is a transition system: a directory, a queue of file events, the handler
thread broken into its `is_file` test, its `stat` and its two locked sections, the index as lists of
entry objects, and readers that memoise a digest in two steps. `PackageIndexes` and `ReleaseIndexes`
hold the index classes themselves, with their in-place updates tied to the functions the transition
system uses; `FileLists` and `TextOrder` are the dictionary-of-sorted-lists they share. `Regex` is a
backtracking matcher in the priority order of Python's `re`, on which `Archives`, `PackageNames`,
`PythonNames`, `NodeNames` and `NodeVersions` build the filename grammars and the version order, with
`Numerals` for decimal numbers. `NodeDocuments` and `Delimited` are the documents a Node mirror publishes.

**Schema migration.** `Databases` is a relational database with CHECKs, unique constraints, indexes,
foreign keys and a connection that runs one statement at a time inside or outside a transaction.
`TableRebuild` is the SQLite rebuild; `CheckText` the text of generated CHECKs and what is read back out
of it; `AgentHubSchema`, `AgentHubTopUp`, `AgentHubChecks`, `AgentHubSteps`, `AgentHubGrowth`,
`AgentHubMigrate`, `AgentHubManifest`, `AgentHubModels`, `AgentHubCoherence` and `AgentHubEarlier` the
Agent Hub migration, its shipped manifest and the fifteen shipped tables; `ModelRouteMigrate`,
`ModelRouteSchema` and `ModelRouteShipped` the `model_routes` migration.

**Single algorithms and protocols.** `Extensions` (Kahn's algorithm and both directions of its
correctness), `OpenApi` (the component worklist), `TagPages` (pagination followed over changing tag
lists), `KeyStats` (usage counters under interleaved sessions).

## What does not hold of the code as it is written

Each of these has a lemma that exhibits the failure and a lemma that gives the exact condition.

- A parsable package name need not have an accepted extension, because `$` also matches before a final
  newline: `PackageNames.NewlineEscapesTheFilter`, exactly then by
  `PackageNames.ParsableHasExtensionUnlessNewline`. For the same reason a release tag may end in a
  newline (`NodeVersions.NewlineTagsAreAccepted`), and only then is it unfit for the tab-separated
  document (`NodeDocuments.ReleaseTagIsClean`); and so may an archive's name
  (`NodeNames.NewlineFilesAreAccepted`), and only then does the checksum file not read back
  (`NodeDocuments.ShasumsReadBack`).
- A Node archive name of a final version whose platform begins like a prerelease keyword is read back
  wrongly unless its first arch segment cannot pass for a platform:
  `NodeNames.ReleaseCandidatePlatformIsMisread`, `NodeNames.NodeFilenameRoundTrip`.
- A file that vanishes between `is_file` and `stat` raises out of the handler and ends the observer
  thread, and the index stops following the directory: `Watch.ObserverCanDie`,
  `Watch.QuietDirectoryConverges`.
- The event handler of a release index looks at a file's parent only. A file further down takes the place
  of the one of its name in the release directory, exactly when it is accepted:
  `ReleaseIndexes.DeeperAddition`; removing it drops the entry of a file that is still there:
  `ReleaseIndexes.DeeperRemovalLosesAFile`, exactly when there is one by `ReleaseIndexes.DeeperRemoval`.
- Following `rel="next"` one tag at a time never gets past an empty tag, and shows it twice when two
  requests in a row answer it: `TagPages.EmptyTagStalls`, exactly then by `TagPages.FixedWalk` and
  `TagPages.WalkIsAscending`.
- On SQLite the row id of a deleted last usage counter is given to the next one. A call that had looked up
  the old row then counts for the new key (`KeyStats.ReusedIdCountsForAnother`), and a `delete_key` that
  had loaded it deletes the new key's row (`KeyStats.LateDeleteTakesAnothers`); counts are off exactly when
  one of the two happens, by `KeyStats.BooksBalanceExactly`. Neither can happen on PostgreSQL
  (`KeyStats.PostgresBooksBalance`), nor when no deletion commits while a call or another deletion that had
  found rows of the key is open (`KeyStats.CarefulBooksBalance`).
- `rebuild_table` can raise after it has committed, because the foreign-key check runs after COMMIT and
  covers the whole database: `TableRebuild.CheckComesTooLate`, for a column that another table points at
  and that the model drops or leaves without uniqueness; exactly then, or when the rows miss the model's
  own references, by `TableRebuild.RebuiltIntegrity`.
- On PostgreSQL, rewriting one CHECK drops every constraint that mentions its column, also when the
  column only occurs as a word of a literal: `AgentHubSteps.AValueCostsAnEntry`. A generated constraint
  mentions exactly what `CheckText.InCheckMentions` says, and another entry loses its constraint exactly
  when that constraint mentions the column: `AgentHubSteps.AdmissionLost`.
- `in_check` does not double quotes, so a vocabulary with a quote in it is not read back:
  `CheckText.QuotesAreNotEscaped`, exactly then by `CheckText.ReadsBackExactly`.
- A listed Agent Hub index whose name another table's index has is reported as added on every boot and
  never made: `AgentHubEarlier.ATakenName`, `AgentHubMigrate.TakenStays`, `AgentHubMigrate.EnsureTwice`;
  where no listed name is taken, every listed index is there afterwards, `AgentHubMigrate.EnsureSchema`.
  One of that name on its own table but with other columns, or not unique, is left as it is and not
  reported: `AgentHubMigrate.BodiesAreNotSeen`, exactly then by `AgentHubMigrate.EntryStandsExactly`.
- A SQLite `model_routes` table with both a stale provider CHECK and a missing metadata column is stuck:
  every boot raises, with the row rewrite committed and nothing else ever changed:
  `ModelRouteShipped.AnEarlierReleaseIsBlocked`, `ModelRouteSchema.EnsureTwice`. On PostgreSQL a stale
  provider CHECK under another name is never retired: `ModelRouteShipped.AnotherNameIsKept`, exactly then
  by `ModelRouteSchema.EnsureSchema`.
- A model document that lists itself among its `$defs`, as a recursive model's does, loses that
  definition's content: `OpenApi.SelfListedAlone`, unless a reference emitted earlier lists it too:
  `OpenApi.SelfListedDefinitionIsLost`. None of the shipped documents is of this kind; names and closure
  are unaffected, `OpenApi.BuildSchemas`.

Documentation and code disagree in two places, and the model follows the code: the docstring of
`rebuild_table` says a failed check raises "before the connection is released", which is after the
commit; the docstring of the `model_routes` `ensure_schema` calls it idempotent without the exception above.

## Model

| member | source | states |
|---|---|---|
| PackageNames.NormalizeDecidesSameName | backend/index/packages.py:21-23 | Two spellings normalise alike exactly when they have the same lower-cased words between separator runs (Normalized Names, PEP 503), and normalising twice changes nothing |
| PackageNames.NormalizeIsCanonical | backend/index/packages.py:21-23 | The normal form is lower case with no separator but single dashes, and a name of that form is its own |
| PackageNames.RespellingKeepsName | backend/index/packages.py:21-23 | Changing the case of a letter, one separator for another, or two separators for one, anywhere in a name, does not change what it normalises to |
| PackageNames.ParsableHasExtensionUnlessNewline | backend/index/packages.py:14-33 | A name `_parse_name` accepts passes the extension filter exactly when it does not end in a newline |
| PackageNames.NewlineEscapesTheFilter | backend/index/packages.py:14-33 | Every parsable name followed by a newline still parses and has no accepted extension |
| PackageNames.WheelRoundTrip | backend/index/packages.py:14-40 | For every five- or six-component wheel name with dash-free components and a version in the pattern's alphabet, parsing recovers the normalised distribution and the version |
| PackageNames.SdistRoundTrip | backend/index/packages.py:17-40 | For every sdist name, with any distribution (dashes included), a version of digits and `!<>.` and a listed extension, parsing recovers the normalised distribution and the version |
| PackageNames.ParsableNames | backend/index/packages.py:14-33 | The names that parse are exactly the wheel-shaped ones and the sdists of a numeric version, with an optional final newline; an sdist of a version with letters is none |
| Regex.TryFindsExactlyTheMatches | backend/index/packages.py:14-17 | The backtracking search finds a match exactly when the pattern, read as a set of strings with no priorities, contains the string |
| Regex.GroupCharacters | backend/index/node_build.py:50-56 | The text of a captured group only holds characters that its part of the pattern consumes, whatever path the search took |
| Regex.CoveredLanguage | backend/index/node_build.py:59-75 | A pattern that follows another step for step, with more groups or choices, accepts everything the other accepts |
| Regex.NewlineAccepted | backend/index/packages.py:14-17 | Whatever a pattern accepts it also accepts with one newline after it |
| TextOrder.SortIsStrict | backend/index/packages.py:118-119 | Sorting a list with distinct keys leaves them strictly in order |
| TextOrder.StrictUnique | backend/index/packages.py:118-119 | Two strictly ordered lists with the same elements are the same list |
| FileLists.SameHoldingsSameIndex | backend/index/packages.py:103-152 | Two well-formed indexes that hold the same entries under the same keys are equal |
| Watch.ScanIgnoresListingOrder | backend/index/packages.py:103-121 | A full scan gives the same index whatever order the directory is listed in |
| Watch.ScanSeesExtraPaths | backend/index/packages.py:110-126 | Scanning without the `is_file` test differs from scanning regular files exactly when some other listed path has an acceptable name |
| Watch.StepKeepsInvariant | backend/index/base.py:89-105 | Every write, delete, move, handler micro-step and reader step keeps: the last thing pending for a path decides what the index will say about it, and stored digests are current or about to be dropped |
| Watch.HandledView | backend/index/base.py:89-105 | Seen through filenames, the observer's locked sections are exactly the replace and the remove the index classes perform, and its other steps change nothing |
| Watch.EveryRunKeepsInvariant | backend/index/base.py:56-70 | The invariant holds in every state of every run that starts from a scan with no change before the observer |
| Watch.ListsStaySound | backend/index/packages.py:103-152 | In every state of every run no list is empty, every list is strictly in order, and every entry is under the key its path is accepted under |
| Watch.DisagreementIsPending | backend/index/base.py:89-105 | In every state of every run, if index and directory disagree about a path then something for that path is still to be handled |
| Watch.QuietIndexIsFreshScan | backend/index/base.py:56-105 | With nothing left to handle, the index equals a fresh scan of the directory modulo size and digest |
| Watch.StoredDigestIsCurrent | backend/index/packages.py:78-89 | A digest found on a listed entry is the hash of the file's present content unless something for its path is still to be handled |
| Watch.DigestsAreComputedOnTheirEntry | backend/index/packages.py:78-89 | A late store never reaches an entry's successor: whatever digest is stored on an entry object was computed after the object was built, from the content its file had then |
| Watch.DrainReachesAgreement | backend/index/base.py:80-113 | Left to itself, the observer works off everything, or dies, and it survives exactly when no `stat` is about to fail |
| Watch.ObserverCanDie | backend/index/packages.py:124-131 | From any empty start, a write and a delete around the handler's test end the observer with the delete unhandled |
| Watch.QuietDirectoryConverges | backend/index/base.py:80-113 | Once the directory stops changing, the observer survives its queue exactly when it is not between its test and its `stat` on a vanished file, and then the index ends equal to a fresh scan |
| PackageIndexes.PackageIndex.FullScan | backend/index/packages.py:103-121 | The filenames of the rebuilt index are the scan of the listing; every listed well-formed wheel and sdist stands under its normalised distribution; the entries are fresh, of size 0, with no digest and with what their names say of version and kind |
| PackageIndexes.PackageIndex.AddOrUpdate | backend/index/packages.py:124-138 | A regular, accepted, parsable file replaces the entry of its name by a fresh one with its present size, and a well-formed wheel or sdist does so under its normalised distribution; anything else changes nothing |
| PackageIndexes.PackageIndex.Remove | backend/index/packages.py:140-152 | Removes exactly the entries of that filename and the key when its list runs empty |
| PackageIndexes.AcceptedNames | backend/index/packages.py:49-52 | The index accepts exactly the parsable names that do not end in a newline, under their parsed names, which are never empty |
| PackageIndexes.PackageStands | backend/index/packages.py:103-138 | In every run, with nothing left to handle, a regular file with a well-formed wheel or sdist name stands under its normalised distribution |
| PackageIndexes.PackageIndex.GetFiles | backend/index/packages.py:95-99 | Answers the list of the normalised name, so all spellings equal under PEP 503 get the same answer |
| PackageIndexes.PackageIndex.GetSha256 | backend/index/packages.py:78-89 | Returns the stored digest, or computes and stores one on this entry object alone; a missing size is filled in when the file can be looked up, also when its content then cannot be read and nothing is stored |
| PackageIndexes.PackageRunsFollowTheDirectory | backend/index/packages.py:69-152 | Every run of the package index: lists non-empty and strictly descending, each file under its parsed name, and a quiet index is a fresh scan in which every regular file with a well-formed wheel or sdist name stands under its normalised distribution |
| PackageIndexes.PackageIndex.Follow | backend/index/base.py:56-105 | The index object itself through a whole run, from the scan on: it always holds what the run's index holds, and with nothing left to handle it equals a fresh scan and holds every well-formed wheel and sdist of the directory under its normalised distribution |
| ReleaseIndexes.DeeperAddition | backend/index/node_build.py:348-363 | After the event handler has seen a new file at any depth, the index still holds only what a full scan would list if and only if the file is in a child of the root or not accepted; otherwise it stands in the place of the live file of its name |
| ReleaseIndexes.DeeperRemoval | backend/index/node_build.py:365-375 | Removing a file at any depth changes the index exactly when a file of that name is listed under its parent's name |
| ReleaseIndexes.DeeperRemovalLosesAFile | backend/index/node_build.py:365-375 | So a file of a release directory that is still there drops out of the index |
| ReleaseIndexes.ReleaseIndex.FullScan | backend/index/node_build.py:300-325 | The rebuilt index is the scan of the regular files of the release directories; lists are non-empty and hold files of their own release, Node entries with the directory's tag |
| ReleaseIndexes.ReleaseIndex.ScanChildren | backend/index/python_build.py:118-127 | The entries of one directory are its archives, each tagged by the index's own rule |
| ReleaseIndexes.ReleaseIndex.AddOrUpdate | backend/index/node_build.py:348-363 | An accepted regular file replaces the entry of its name in its parent's release by a fresh one; anything else changes nothing |
| ReleaseIndexes.ReleaseIndex.Remove | backend/index/node_build.py:365-375 | Removes exactly the entries of that filename from the parent's release, and the release when none is left |
| ReleaseIndexes.ReleaseIndex.GetFilesForRelease | backend/index/python_build.py:67-70 | A tag is known exactly when it has files, and then they are its non-empty list |
| ReleaseIndexes.ReleaseIndex.GetFile | backend/index/node_build.py:167-172 | Finds a file of the release by name exactly when one is listed |
| ReleaseIndexes.ReleaseIndex.constructor | backend/index/node_build.py:146-151 | A new index is empty and keeps the list invariant |
| ReleaseIndexes.ReleaseRunsFollowTheTree | backend/index/python_build.py:107-165 | Every run of a release index over depth-two files: no empty release, each release in filename order, every file under its own directory's tag (which is the tag Node entries carry), every tag a release tag and every file one that parses, and a quiet index is a fresh scan in which every well-named archive of a release directory stands |
| ReleaseIndexes.ReleaseIndex.Follow | backend/index/base.py:56-105 | The index object itself through a whole run, from the scan on: it always holds what the run's index holds, and with nothing left to handle it equals a fresh scan |
| ReleaseIndexes.BuildTagIsItsDate | backend/index/python_build.py:41-47 | A CPython archive is accepted in every release directory and its entry carries the date of its name, which is the tag it stands under exactly when the directory is named so |
| ReleaseIndexes.ArchiveStands | backend/index/node_build.py:300-363 | In every run, with nothing left to handle, a regular file with a printed archive name in a directory named by a release tag stands under that tag, in either index |
| NodeNames.NodeFilenameRoundTrip | backend/index/node_build.py:50-112 | Printing and parsing a Node archive name of any version, platform, arch and listed extension returns the parts exactly when the name is not a final version whose platform can be read as a prerelease |
| NodeNames.PrintedNamesAreAccepted | backend/index/node_build.py:50-112 | Every well-formed archive name is accepted, read back exactly or not |
| NodeNames.TokenOfName | backend/index/node_build.py:115-140 | The tokens of printed names: `linux-x64` and the like without a format, `osx-` and `win-` with the format spelled out, `headers`, `src` and `pkg` alone |
| NodeNames.ReleaseCandidatePlatformIsMisread | backend/index/node_build.py:50-56 | Version 20.11.0 for a platform called rc is read back as a release candidate |
| NodeNames.FileTokenIsSeparatorFree | backend/index/node_build.py:125-140 | The token of any archive the pattern accepts holds no comma, tab or newline |
| NodeNames.NewlineFilesAreAccepted | backend/index/node_build.py:50-56 | An accepted archive name is also accepted with a newline after it, which stays part of the filename |
| PythonNames.BuildFilenameRoundTrip | backend/index/python_build.py:12-38 | Printing and parsing a CPython archive name of any flavor, version, date, triple, variant and extension returns the parts, and the name passes the extension filter |
| PythonNames.ReleaseTagsAreDates | backend/index/python_build.py:107-117 | The release directories are exactly those named by eight digits, with an optional final newline |
| NodeVersions.ReleaseTagsHaveKeys | backend/index/node_build.py:59-90 | Every tag accepted as a release directory matches the version pattern, so the fallback key is never used for an indexed tag |
| NodeVersions.ReleaseTagsAreTags | backend/index/node_build.py:59-59 | The release directories are exactly those named by an optional `v`, three numerals and an optional prerelease, with an optional final newline |
| NodeVersions.NewlineTagsAreAccepted | backend/index/node_build.py:59-59 | A tag followed by a newline is accepted as a release directory whenever the tag is |
| NodeVersions.KeyOrderIsTotal | backend/index/node_build.py:78-90 | Version keys are totally ordered |
| NodeVersions.NotNewerIsPreorder | backend/index/node_build.py:78-90 | Ranking by key is a total preorder on tags |
| Numerals.DecimalReads | backend/index/node_build.py:84-89 | Printing any natural number in decimal and reading it back gives the number |
| Numerals.WritesExactly | backend/index/node_build.py:84-89 | A run of digits reads as n exactly when it is n printed, behind any number of zeros |
| Numerals.NumberOrder | backend/index/node_build.py:84-89 | Of two printed numbers the shorter is the smaller; of equal length, the one that comes first as text |
| NodeVersions.VersionKeyReads | backend/index/node_build.py:72-90 | The key of a tag that prints three natural numbers is those numbers, whether it is final, and its prerelease text |
| NodeVersions.OrderFollowsSemver | backend/index/node_build.py:78-90 | Tags that print three natural numbers compare by those numbers, as section 11 of Semantic Versioning 2.0.0 says; a final outranks its own prereleases, and two prereleases of one release compare as text |
| NodeVersions.PrereleasesCompareAsText | backend/index/node_build.py:84-90 | Numeric prerelease identifiers compare as text, so rc.10 ranks below rc.9 |
| NodeVersions.SortTagsNewestFirst | backend/index/node_build.py:157-160 | The release list is a permutation of the indexed tags in which no later tag is strictly newer |
| NodeVersions.ResolveAlias | backend/index/node_build.py:180-197 | Answers a wanted indexed release that no wanted one is strictly newer than, and none exactly when none is wanted |
| NodeVersions.AliasAnswer | backend/index/node_build.py:180-197 | In the numbers the tags print: `latest` answers a release none comes after, `latest-vN.x` one of major number N that none of that number comes after, and none only when there is no release of the number asked for |
| NodeVersions.AliasesRead | backend/index/node_build.py:180-190 | `latest` and `latest-vN.x`, for every natural number N, are read as such, and every other tag is no alias |
| NodeVersions.Resolve | backend/routes/node_build.py:79-83 | An indexed tag is itself, a resolved tag always has files, and nothing resolves exactly when no indexed release is wanted |
| NodeDocuments.IndexDocument | backend/index/node_build.py:236-267 | The loop builds the entry of every release in sorted order |
| NodeDocuments.DocumentListsTheIndex | backend/index/node_build.py:236-267 | The document lists exactly the indexed releases, newest first, each with exactly the tokens of its own files |
| NodeDocuments.Tokens | backend/index/node_build.py:244-252 | The file tokens of an entry are duplicate-free and are those of its files |
| NodeDocuments.TokensByFilename | backend/index/node_build.py:244-252 | The tokens of an entry stand in the order of the filenames that first produce them |
| NodeDocuments.OverlaySurvives | backend/index/node_build.py:253-265 | What the overlay says of a listed field survives, `lts` and `security` are `False` unless it says otherwise, and nothing else is added |
| NodeDocuments.IndexTabReadsBack | backend/index/node_build.py:269-296 | Splitting the document on newline, tab and comma gives back the header and, for every clean entry and under each header, what the entry holds there: version, date, tokens, component versions, lts and security |
| NodeDocuments.ReleaseTagIsClean | backend/index/node_build.py:59-59 | A release tag is free of separators exactly when it does not end in a newline |
| NodeDocuments.IndexedEntriesAreClean | backend/index/node_build.py:236-296 | Entries of parsed files with a clean overlay are clean, so the document reads back |
| NodeDocuments.ShasumsReadBack | backend/index/node_build.py:219-234 | Parsing the checksum text recovers exactly the map from filename to digest of the release if and only if no filename holds a newline |
| Delimited.SplitJoin | backend/index/node_build.py:269-296 | Splitting undoes joining when no part holds the separator |
| Extensions.TopologicalSort | backend/extensions/__init__.py:84-114 | Succeeds exactly when dependencies are known, names unique and the graph acyclic; the order is a permutation with dependencies first; an unknown dependency reported is the first one; on a cycle the reported names are exactly those on a cycle or depending transitively on one |
| Extensions.NobodyBlockedIffAcyclic | backend/extensions/__init__.py:99-112 | No extension is on, or depends on, a cycle exactly when the graph is acyclic |
| Extensions.NoEscapeIsBlocked | backend/extensions/__init__.py:99-112 | In a finite set where everyone depends on a member, every member is on or depends on a cycle |
| Extensions.OrderedIsNotBlocked | backend/extensions/__init__.py:99-112 | Whatever stands in a dependency-respecting order is on no cycle and depends on none |
| Extensions.KahnEnd | backend/extensions/__init__.py:99-112 | When the queue runs empty, the names sorted are exactly the unblocked ones and the positive in-degrees exactly the blocked ones |
| Extensions.DoneCount | backend/extensions/__init__.py:108-112 | The length test passes exactly when names are unique and none is left over, so duplicate names are always rejected |
| Extensions.BuildGraph | backend/extensions/__init__.py:84-98 | The in-degree and adjacency tables describe exactly the dependency edges with multiplicity, or the first unknown dependency is reported |
| Extensions.InitAll | backend/extensions/__init__.py:58-74 | Starts a prefix of the order, stops at the first extension that raises, and starts nothing before its dependencies |
| Extensions.TeardownAll | backend/extensions/__init__.py:76-81 | Visits every extension in reverse order, whatever any of them raises |
| Extensions.TeardownReachesDependentsFirst | backend/extensions/__init__.py:76-81 | Tearing a sorted list down reaches every dependent before what it depends on |
| OpenApi.RefsInIsExact | backend/openapi/spec.py:163-179 | The walk collects a name exactly when some object at some depth has a `$ref` text that starts with `#/components/schemas/` and ends in a slash and that name |
| OpenApi.PlainReference | backend/openapi/spec.py:169-172 | `$ref: #/components/schemas/N`, for every N without a slash, refers to exactly N; an object without `$ref`, or with one that is no text or points elsewhere, refers to nothing itself |
| OpenApi.Hoist | backend/openapi/spec.py:182-215 | Hoisting adds exactly the definitions not yet emitted and only queues names of definitions |
| OpenApi.BuildSchemas | backend/openapi/spec.py:182-215 | The worklist terminates; it succeeds exactly when every reference is a model or was brought along by one worked off earlier, and otherwise names the first that is not; on success the components cover the references of the paths, are reachable from them, are closed under `$ref` when documents are self-contained, keep the one meaning of each name, and are those of emitting the references in ascending order |
| OpenApi.BuildSpec | backend/openapi/spec.py:261-309 | The unresolved-reference check never fires after a successful build; it succeeds or names a missing model exactly as the worklist does, and succeeds when every reference is a model |
| OpenApi.ComponentOfReference | backend/openapi/spec.py:195-212 | The component of a referenced model is its own document exactly when no reference emitted earlier lists its name, and otherwise the definition one of them lists |
| OpenApi.SelfListedDefinitionIsLost | backend/openapi/spec.py:195-212 | A document that lists itself among its definitions keeps that definition if and only if a reference emitted earlier lists it; otherwise the document overwrites it |
| OpenApi.SelfListedAlone | backend/openapi/spec.py:195-212 | A recursive model's document, referenced alone, loses its definition |
| TagPages.LimitRoundTrip | backend/routes/docker.py:278-293 | The `n` a next link carries is read back as the same limit |
| TagPages.LimitMeaning | backend/routes/docker.py:278-293 | `?n=` is the limit n exactly when its text is white space, an optional sign, digits with single underscores and white space, denoting n; a negative number or any other text is no limit |
| TagPages.DockerTags | backend/routes/docker.py:329-350 | The response is the page of the tags beyond the cursor under the parsed limit |
| TagPages.LinkAdvances | backend/routes/docker.py:335-349 | A next link moves the cursor strictly forward exactly when the page is not the empty tag alone |
| TagPages.WalkIsAscending | backend/routes/docker.py:329-350 | Following next links over any ascending tag lists that change between requests yields a strictly increasing sequence, except, one tag at a time from the start, exactly when the first two requests both answer the empty tag |
| TagPages.WalkMissesNothing | backend/routes/docker.py:329-350 | A tag present in every list a completed walk asked for is collected |
| TagPages.FixedWalk | backend/routes/docker.py:329-350 | Over a fixed list the pages concatenate to it in max(1, ceil(N/n)) requests exactly when the walk does not stall on an empty tag |
| TagPages.RequestsIsCeiling | backend/routes/docker.py:337-341 | The number of requests is the ceiling of N/n, and at least one |
| TagPages.DegenerateLimits | backend/routes/docker.py:337-349 | `n = 0` answers an empty page with no link, and no limit the whole rest |
| TagPages.EmptyTagStalls | backend/routes/docker.py:332-349 | One at a time over a list that starts with the empty tag, no number of requests completes the walk |
| KeyStats.CommitCountsOnce | backend/auth/api_keys.py:175-198 | A call that raises changes nothing; a call that returns adds exactly one to its own counter and nothing to any other, if and only if the row it had looked up is not by now another counter's |
| KeyStats.LostInsertRaceRaises | backend/auth/api_keys.py:175-198 | Of two calls that both looked before either inserted, the second raises and drops nothing |
| KeyStats.CountsAreCallsReturned | backend/auth/api_keys.py:98-198 | Between any two states of any interleaving with no misdirected write or delete in between, the counts of any selection of counters of undeleted keys grow by exactly the number of selected calls that returned |
| KeyStats.BooksBalanceExactly | backend/auth/api_keys.py:98-198 | Over every interleaving of calls, key creations and deletions on either database, all counts equal the calls that returned, in every stretch of the run, if and only if no call writes to a row that is by now another counter's and no deletion takes a counted row that is by now another key's |
| KeyStats.PostgresBooksBalance | backend/models/api_key.py:90-103 | With ids drawn from a sequence, as PostgreSQL does, they always do |
| KeyStats.CarefulBooksBalance | backend/auth/api_keys.py:98-111 | On either database they do in every run in which no deletion commits while a call, or another deletion, that had found rows of the key is open |
| KeyStats.ReusedIdCountsForAnother | backend/models/api_key.py:90-103 | A run on SQLite, where the column is a bare rowid, that ends with one key's call counted for another key |
| KeyStats.LateDeleteTakesAnothers | backend/auth/api_keys.py:98-111 | A run on SQLite in which two deletions of one key overlap, the second takes another key's counter, and every write was on its own row |
| KeyStats.GetKeyStats | backend/auth/api_keys.py:154-173 | The two totals are the sums over the key's rows by event type; the rows listed are exactly the key's, each with its own counter's count, the most counted first and equal counts by package |
| KeyStats.TotalsAgree | backend/models/api_key.py:74-80 | The model's own counts, over rows loaded in any order, equal the totals `get_key_stats` computes |
| KeyStats.ApiKeyManager.Increment | backend/auth/api_keys.py:175-198 | Alone, a call returns exactly when the key exists, adds one to every sum that selects its counter and nothing to any other, and otherwise changes nothing |
| KeyStats.ApiKeyManager.RecordDownload | backend/auth/api_keys.py:148-149 | Returns exactly when the key exists; then the counter of this key, package and `download` has grown by one and every other single counter is where it was; otherwise nothing changes |
| KeyStats.ApiKeyManager.RecordUpload | backend/auth/api_keys.py:151-152 | Returns exactly when the key exists; then the counter of this key, package and `upload` has grown by one and every other single counter is where it was; otherwise nothing changes |
| CheckText.InCheckLiterals | backend/models/base.py:25-33 | The literals read back out of a printed vocabulary are the vocabulary, for every list of quote-free values |
| CheckText.QuotesAreNotEscaped | backend/models/base.py:25-33 | A value that is a quote is not read back |
| CheckText.ReadsBackExactly | backend/models/base.py:25-33 | A vocabulary of distinct values is read back out of its constraint if and only if none of them holds a quote |
| CheckText.AdmitsAfterAdding | backend/models/agent_hub_migrate.py:234-256 | After a generated constraint is put in place it admits a required vocabulary exactly when every required value is in it |
| CheckText.MentionsIsWord | backend/models/agent_hub_migrate.py:259-260 | The mention test holds exactly when the column is one of the maximal words of the text, so it never confuses a column with a longer identifier |
| CheckText.InCheckMentions | backend/models/agent_hub_migrate.py:259-260 | A generated constraint mentions exactly its column, the word IN, and whatever column is spelled like a word of one of its values |
| CheckText.AValueIsTakenForAColumn | backend/models/agent_hub_migrate.py:295-300 | A vocabulary of one column with a value spelled like another column mentions that column |
| Databases.Connection.DropTable | backend/models/table_rebuild.py:12-14 | Dropping a table leaves every other table alone only while foreign-key enforcement is off |
| TableRebuild.RebuildTable | backend/models/table_rebuild.py:53-106 | Raises before COMMIT, with the database unchanged, exactly when the model is unregistered or quoted, a model column is missing, or a row or index breaks the model; otherwise the rebuilt database is committed, and it raises afterwards exactly when the foreign-key check fails; enforcement is on again |
| TableRebuild.SwapIn | backend/models/table_rebuild.py:79-86 | The five statements together replace the table's shape and keep its projected rows, everything else as it was |
| TableRebuild.CreateIndexes | backend/models/table_rebuild.py:87-93 | In any iteration order, the model's indexes exist wherever their names were free, and it fails exactly when one that is free cannot be built |
| TableRebuild.RebuildKeepsRows | backend/models/table_rebuild.py:82-84 | Row by row, surviving columns keep their values and dropped ones are gone |
| TableRebuild.RebuildKeepsWellFormed | backend/models/table_rebuild.py:79-93 | A rebuild leaves rows within their columns and indexes on existing tables |
| TableRebuild.RebuildIsStable | backend/models/table_rebuild.py:53-106 | A rebuilt table can be rebuilt again, and that changes nothing |
| TableRebuild.RebuiltIntegrity | backend/models/table_rebuild.py:94-104 | If references were intact before, the check after COMMIT passes if and only if, before the call, the rows met the model's own foreign keys and every column of the table that another table points at is declared and kept unique by the model |
| TableRebuild.CheckComesTooLate | backend/models/table_rebuild.py:94-104 | A concrete database whose rebuild commits and only then raises, because a referenced column is dropped, or because only its uniqueness is |
| AgentHubManifest.ShippedIsSelfConsistent | backend/models/agent_hub_migrate.py:66-145 | The shipped manifest keeps the rules it has to keep by itself: no table or column listed twice, non-empty quote-free vocabularies, and no entry's column among the words of another's constraint |
| AgentHubModels.ModelAdmits | backend/models/agent_hub.py:60-1085 | The model of a declaration admits exactly the rows with a value in every column that is not nullable and in every vocabulary, no two of which agree on `id` or on what is declared unique |
| AgentHubCoherence.ShippedIsCoherent | backend/models/agent_hub.py:60-1085 | The shipped manifest and the fifteen declared tables together meet every condition the migration is proved under: what is listed is declared, listed indexes with the same columns and uniqueness, no two tables share an index name, indexes and foreign keys are on declared columns, and every foreign key is to a unique one |
| AgentHubEarlier.BeforeValidate | backend/models/agent_hub_migrate.py:87-90 | A database from before the `validate` phase, with any users, repositories and import jobs that meet today's model and with the declared indexes, lacks the constraint and is one the migration does not raise on, on either database |
| AgentHubTopUp.CreateMissingTables | backend/models/agent_hub_migrate.py:310-327 | Reports exactly the listed tables that were absent, creates exactly those as their models declare them with their indexes, and touches nothing that was there |
| AgentHubTopUp.AddColumns | backend/models/agent_hub_migrate.py:193-201 | Although the inspector predates every ALTER, no ALTER fails, exactly the missing listed columns are added and reported, and rows and everything else stay |
| AgentHubTopUp.AddIndexes | backend/models/agent_hub_migrate.py:203-216 | Adds and reports exactly the listed indexes that were absent, each where its name was free, with the columns and the uniqueness of its entry, and nothing else |
| AgentHubChecks.EvolvePostgres | backend/models/agent_hub_migrate.py:287-307 | Drops every live CHECK that mentions the column and adds the generated one, or, exactly when the vocabulary is empty, a same-named CHECK survives or a row fails, changes nothing |
| AgentHubSteps.EvolvedTrims | backend/models/agent_hub_migrate.py:263-284 | Rewriting one constraint loses no row and no value of a surviving column, and leaves tables without listed constraints alone |
| AgentHubSteps.EvolvedSatisfies | backend/models/agent_hub_migrate.py:269-283 | The rewritten entry's live constraint admits its vocabulary on both dialects |
| AgentHubSteps.EvolvedKeepsSatisfied | backend/models/agent_hub_migrate.py:269-283 | No other entry loses its constraint, although one SQLite rebuild rewrites all of a table's and PostgreSQL drops by mention |
| AgentHubSteps.AdmissionLost | backend/models/agent_hub_migrate.py:292-300 | On PostgreSQL another entry of the table loses its constraint exactly when that constraint mentions the rewritten column, whatever the manifest |
| AgentHubSteps.AValueCostsAnEntry | backend/models/agent_hub_migrate.py:292-300 | A concrete table where rewriting `kind` costs `status` its constraint, because `kind` is one of its values |
| AgentHubSteps.EvolvedKeepsStanding | backend/models/agent_hub_migrate.py:218-221 | Listed columns and indexes survive a rewrite |
| AgentHubSteps.EvolvedCarries | backend/models/agent_hub_migrate.py:263-284 | A rewrite keeps the columns and uniqueness of every listed index, and no two rows collide on a unique index after it |
| AgentHubSteps.EvolvedKeepsReady | backend/models/agent_hub_migrate.py:263-284 | A rewrite keeps every other pending rewrite possible, foreign keys included |
| AgentHubGrowth.IntegrityGrown | backend/models/agent_hub_migrate.py:318-326 | Creating tables and adding columns keeps every reference intact |
| AgentHubGrowth.EnteredInSteps | backend/models/agent_hub_migrate.py:187-216 | Tables, columns and indexes together leave every listed index whose name was free as it is listed, whether it came with its table or was added |
| AgentHubGrowth.ReadyWhenGrown | backend/models/agent_hub_migrate.py:187-221 | A repairable schema is ready for the constraint step once tables, columns and indexes are there |
| AgentHubMigrate.EvolveCheckConstraints | backend/models/agent_hub_migrate.py:263-284 | Every listed constraint admits its vocabulary afterwards, rows are kept even when it raises, it does not raise on a ready database, and it reports nothing exactly when nothing was stale |
| AgentHubMigrate.EnsureSchema | backend/models/agent_hub_migrate.py:168-223 | Ends with every listed table, column and index present and every listed CHECK admitting its vocabulary; every listed index whose name was free has the columns and uniqueness of its entry, also after a SQLite rebuild, and unique indexes are kept; does not raise on a repairable schema; keeps rows in every outcome; reports exactly what was absent; four empty lists exactly when the database was current, and then it is unchanged |
| AgentHubMigrate.EntryStandsExactly | backend/models/agent_hub_migrate.py:203-216 | Where no rebuild is of its table, a listed index has the columns and uniqueness of its entry afterwards exactly when its name was free or it had them before |
| AgentHubMigrate.BodiesAreNotSeen | backend/models/agent_hub_migrate.py:203-210 | A database is as current with any other index of a listed name on that table, unique or not |
| AgentHubEarlier.EnsureShipped | backend/models/agent_hub_migrate.py:143-216 | After the shipped `ensure_schema`, unless `ix_repos_slug` named something else before, no two rows of `repos` agree on a non-null slug |
| AgentHubMigrate.EnsureTwice | backend/models/agent_hub_migrate.py:168-175 | A second call after a successful first one reports four empty lists and changes nothing; an index whose name is taken is reported as added by both and is there after neither |
| AgentHubMigrate.TakenStays | backend/models/agent_hub_migrate.py:203-216 | A listed index name that another table has taken, and that no rebuild frees, stays taken, is reported and keeps the database from being current |
| AgentHubEarlier.ATakenName | backend/models/agent_hub_migrate.py:203-216 | A concrete database where `ix_repos_slug` is taken |
| ModelRouteMigrate.RewrittenCells | backend/models/model_route_migrate.py:225-236 | The two UPDATEs in this order turn a retired provider into openai, clear the path exactly when it was the retired default, and change no other cell; no retired row is left |
| ModelRouteMigrate.OrderMatters | backend/models/model_route_migrate.py:225-236 | In the other order the retired path would survive |
| ModelRouteMigrate.RewriteRows | backend/models/model_route_migrate.py:217-236 | Both UPDATEs commit together or not at all, and the names reported are those of the retired rows |
| ModelRouteMigrate.RefreshCheck | backend/models/model_route_migrate.py:238-255 | Does nothing to a current constraint; a stale one is replaced on PostgreSQL exactly when every row passes, and by a rebuild on SQLite, and the change is reported as what it was |
| ModelRouteMigrate.AddMetadataColumns | backend/models/model_route_migrate.py:113-132 | Adds and reports exactly the missing columns, in order, and never fails |
| ModelRouteMigrate.RetireApiKeyEnv | backend/models/model_route_migrate.py:159-176 | Does nothing without the column; otherwise drops it on PostgreSQL and rebuilds on SQLite, and says so |
| ModelRouteMigrate.CurrentCheckIsCurrent | backend/models/model_route_migrate.py:179-195 | The constraint generated from the current providers is not found stale |
| ModelRouteMigrate.StaleExactly | backend/models/model_route_migrate.py:179-195 | A constraint is found stale exactly when its text holds the retired provider, in any case |
| ModelRouteMigrate.RetiredVocabularyIsStale | backend/models/model_route_migrate.py:179-195 | A generated vocabulary that lists the retired provider is found stale |
| ModelRouteSchema.StaleAfterwardsPostgres | backend/models/model_route_migrate.py:241-250 | On PostgreSQL a constraint is still stale afterwards exactly when a stale one had another name and did not go with the dropped column |
| ModelRouteSchema.BlockedForever | backend/models/model_route_migrate.py:287-294 | A blocked schema stays blocked after the row rewrite, and rewriting again changes nothing |
| ModelRouteSchema.EnsureSchema | backend/models/model_route_migrate.py:260-303 | Blocked: raises with exactly the row rewrite committed. Otherwise a convertible table is converted: current columns and provider CHECK, rewritten rows, every other surviving cell and every other table kept, the report measured exactly; a current table is left alone |
| ModelRouteSchema.EnsureTwice | backend/models/model_route_migrate.py:260-303 | A second boot after a conversion changes nothing; a blocked table raises both times and is only ever rewritten |
| ModelRouteShipped.ShippedIsRouteModel | backend/models/model_route.py:171-224 | The shipped declaration has what the migration assumes of it |
| ModelRouteShipped.AnEarlierReleaseIsBlocked | backend/models/model_route_migrate.py:287-294 | A table from before both changes, complete but for the metadata and with a route of the retired provider, which could be rewritten and rebuilt if the metadata columns were there, is a concrete blocked database |
| ModelRouteShipped.AnotherNameIsKept | backend/models/model_route_migrate.py:241-250 | The same table with its stale provider CHECK under another name: the boot goes through on PostgreSQL and keeps it |

## Left out

- Unicode: character classes, lower-casing, digits and white space are modelled on ASCII.
- The 4300-digit limit of `int()` and the string-surgery fallback of `_extract_version`, which no indexed filename reaches.
- The digest cache and its sidecar files (`services/*` is not part of this model): a digest is an abstract hash of the content.
- Changes between the full scan and the start of the observer: the model starts after both, with no event lost.
- Events for directories, event coalescing and ordering inside the watchdog library: each change of a regular file enqueues its event in order.
- Symbolic links and case-insensitive file systems; a path is its name, and package files sit directly in the watched directory.
- `get_snapshot`, `stats`, `as_dict`, the index overlay's JSON parsing and the CPython document routes: they copy or present what is modelled.
- Route decorators, HTML, authorization, URL quoting of the next link, JSON encoding and HTTP status codes.
- The order in which emitted components appear and `_model_registry`'s import-time collection; path and operation texts of the OpenAPI document.
- Key creation, validation and listing; time stamps; pooled sessions beyond the lookup and commit of one counter.
- `_apply_light_migrations` and the connection retry loop: the same column and index loop as the Agent Hub's with other constants.
- `plaintext_key_count` and the seed scripts: a count and plain inserts.
- SQL types, type affinity, defaults, partial and expression indexes, views and triggers; `CHECK` constraints are vocabularies of one column, and PostgreSQL is taken to report a generated one with the text it was given.
- Lock errors and crashes of the database process; a statement either succeeds or fails, and a transaction commits or is restored.
- Foreign keys are checked by the rebuild only; enforcement during ordinary statements and the actions of `ON DELETE` are not modelled, except that dropping a table with enforcement on leaves other tables unknown.
- Databases.Connection.DropTable: says nothing about other tables while enforcement is on, because the repository never relies on it.
- AgentHubMigrate.EnsureSchema: the list of updated constraints is only said to be empty or not, because one SQLite rebuild repairs several entries and the repository promises no more.
- ReleaseIndexes.ReleaseRunsFollowTheTree: files at depth two only; `DeeperAddition` and `DeeperRemoval` say exactly when a deeper file would matter.
- Watch.QuietDirectoryConverges: assumes the observer is alive in the chosen state, because nothing restarts it.
