# gitlab-composer registry builder, modelled in Dafny

gitlab-composer publishes a Composer repository for a GitLab instance. Its
`RegistryBuilder` turns the branches and tags of GitLab projects into the
`packages.json` index Composer reads, as follows:

- every ref is classified into a Composer version label;
- the ref's `composer.json` is fetched and validated, then stamped with `version` and `source`;
- each project's versions are merged, last write wins;
- the result is cached per project, gated by GitLab's `last_activity_at`;
- on a cache miss that finds packages, a push webhook is registered on the project when `create_webhook` is set;
- the index is assembled from all projects plus the static packages of `confs/static-repos.json`, and rewritten only when some project is newer than it.

A push webhook can also add one ref to a project's cache and force a rebuild.

The model keeps the program's structure. `RegistryBuilder` is a class whose fields are:

- the `static $ref_cache` memo of `fetch_ref`;
- the cache files;
- the index file;
- the projects' hooks.

Its methods are `fetch_composer`, `fetch_ref`, the `$fetch_refs`, `$load_data` and
`$get_package_name` closures, `build()` and `update()`. Each method is proved
against a pure specification function:

| specification | what it defines |
|---|---|
| `VersionLabel` | the label a ref gets |
| `AcceptManifest` | whether a fetched manifest is accepted |
| `RefPackage` | the entry one ref contributes |
| `ProjectVersions` | the merged versions of one project |
| `MaxActivity` | `$mtime`, the latest activity of the listed projects |
| `CachedValue` | what `$load_data` returns on a cache hit |
| `LoadOutcome` | the result of the per-project cache |
| `HookNeeded` / `HookTurn` | when `$load_data` registers the webhook, and the hooks after one load |
| `Registered` | a project's hooks after registration |
| `PackageNameOf` | the name a project's package is registered under |
| `ProjectLoop` / `Assemble` | the project loop of `build()`, for any load and name function / for `$load_data` and `$get_package_name` |
| `LoopHooks` / `AssembleHooks` | the hooks after that loop, for any load, name and registration test / for this program's |
| `Tagged` | a static package's versions marked with `_source` |
| `Overlay` / `IndexOf` | the static overlay and the published index |
| `RemoveAll` / `StripRefAsWritten` | `str_replace` and the ref-name strip of `update()` as written |
| `StoredBefore` / `Pushed` / `AfterPush` | the versions stored before a push, the content `update()` writes, and the cache files after it |

Lemmas then prove what those functions promise.

GitLab is an oracle, the record `Gitlab.Api` of total functions. `None` stands
for a `RuntimeException`. The file system is two fields of the class:

- `cacheFiles`, a map from project path to content and mtime;
- `packagesFile`, the index and its mtime.

Time is the parameter `now`. Two ghost counters record the per-project GitLab
requests and the `addHook()` calls.

| file | module | source it models |
|---|---|---|
| php_values.dfy | PhpValues | PHP string truthiness, `strcasecmp`, decoded JSON |
| gitlab.dfy | Gitlab | configuration values, projects, refs, hooks, the API oracle |
| ref_classifier.dfy | RefClassifier | the version pattern of `fetch_ref` |
| manifests.dfy | Manifests | `fetch_composer` validation, the entry `fetch_ref` builds |
| merging.dfy | Merging | the `$datas[$version] = $data` loops |
| projects.dfy | ProjectListing | the project listing and `$mtime` of `build()` |
| project_cache.dfy | ProjectCache | `$fetch_refs`, `$load_data`, webhook registration |
| static_overrides.dfy | StaticOverrides | the static packages, `_source` markers, `array_filter` |
| webhook_ref.dfy | WebhookRefs | the ref-name `str_replace` of `update()` |
| registry_builder.dfy | Registry | the `RegistryBuilder` object, `build()`, `update()` |

Some behaviour of the code that the model keeps:

- `build()` writes the index with the time of writing as its mtime. It is regenerated once some project's `last_activity_at` passes that time.
- A push for a project without a cache file writes a new file. It holds the pushed entry, or `null` when the pushed manifest is refused. Writing it needs the project's namespace directory under `cache/` to exist already (see Left out).
- With name mismatches allowed, a project's package name is the `name` in its default branch's manifest.
- Every ref name that does not match the version pattern is labelled `dev-<name>`.
- With groups configured, only the projects of those groups are listed.
- `$fetch_refs` requests both listings before it fetches any ref. A listing exception therefore yields the empty map.

## Model

| member | source | states |
|---|---|---|
| PhpValues.Lowered | src/RegistryBuilder.php:66 | the ASCII lower-casing that `strcasecmp` compares by: same length, each character lower-cased |
| PhpValues.SameIgnoringCaseIff | src/RegistryBuilder.php:66 | `strcasecmp(a, b) === 0` exactly when the lower-cased strings are equal |
| PhpValues.SameIgnoringCaseIsEquivalence | src/RegistryBuilder.php:66 | the name test is reflexive, symmetric and transitive |
| RefClassifier.DigitRun | src/RegistryBuilder.php:91 | the `\d+` run: a digits-only prefix that stops at the first non-digit |
| RefClassifier.ReadNumbers | src/RegistryBuilder.php:91 | reads `\d+(\.\d+)*`: the numbers read, joined by dots, plus the rest give back the input |
| RefClassifier.ReadSuffix | src/RegistryBuilder.php:91 | reads `(-(dev\|patch\|alpha\|beta\|RC)\d*)?` and what it reads renders back to its input |
| RefClassifier.ParseVersion | src/RegistryBuilder.php:91 | a parsed tag is well formed and renders back to the input |
| RefClassifier.ParseRender | src/RegistryBuilder.php:91 | parsing the rendering of any well-formed tag gives that tag back |
| RefClassifier.ParseVersionIff | src/RegistryBuilder.php:91 | the parser accepts exactly the renderings of well-formed tags |
| RefClassifier.ReadNumbersOfJoin | src/RegistryBuilder.php:91 | reading a dot-joined number list followed by a suffix returns that list and that suffix |
| RefClassifier.MatchedTag | src/RegistryBuilder.php:91 | the match allows the one final newline that PCRE's `$` accepts |
| RefClassifier.VersionLabelSpec | src/RegistryBuilder.php:91-95 | a name is its own label exactly when it matches the version pattern; otherwise it gets `dev-` |
| RefClassifier.VersionLabelInjective | src/RegistryBuilder.php:91-95 | distinct ref names get distinct labels |
| RefClassifier.MatchStartsWithVOrDigit | src/RegistryBuilder.php:91 | matching names start with `v` or a digit |
| RefClassifier.PrereleaseTagLabel | src/RegistryBuilder.php:91-92 | `v2.3.1-beta4` keeps its name |
| RefClassifier.BranchLabel | src/RegistryBuilder.php:93-94 | `feature/x` becomes `dev-feature/x` |
| RefClassifier.WildcardNumbers | src/RegistryBuilder.php:91 | `1.0.x` reads as the numbers `1` and `0`, leaving `.x` for the suffix |
| RefClassifier.WildcardBranchLabel | src/RegistryBuilder.php:93-94 | `1.0.x` is a branch: `dev-1.0.x` |
| Manifests.AcceptManifest | src/RegistryBuilder.php:54-75 | a manifest is returned unchanged exactly when the call succeeded and the reply has content; the decoded `name` must be a string other than `""` and `"0"` that equals the path ignoring case, unless mismatches are allowed |
| Manifests.RefPackageSpec | src/RegistryBuilder.php:90-107 | a ref yields nothing exactly when its manifest is refused. Otherwise it yields one entry under its label: the manifest with `version` set to the label and `source` set to the clone URL, `git` and the commit; the manifest's other keys are kept |
| Manifests.RefPackageName | src/RegistryBuilder.php:66 | an entry's name is a truthy string and matches the path unless mismatches are allowed |
| Manifests.CaseInsensitiveMatch | src/RegistryBuilder.php:66 | `Foo/Bar` is accepted for project `foo/bar` |
| Manifests.NameMismatchExamples | src/RegistryBuilder.php:66-67 | a manifest named `foo/bar` is refused for project `foo/baz` unless mismatches are allowed |
| Merging.MergeAll | src/RegistryBuilder.php:170-173 | a version is in the merge exactly when some ref produced it |
| Merging.LastWriteWins | src/RegistryBuilder.php:170-173 | a version takes the value from the last ref that produced it |
| Merging.MergeAllAppend | src/RegistryBuilder.php:170 | merging branches then tags is the branch merge overwritten by the tag merge |
| Merging.UpsertKeepsOthers | src/RegistryBuilder.php:140-142 | the upsert adds or replaces the fetched versions and keeps all others |
| ProjectListing.GroupProjects | src/RegistryBuilder.php:257-269 | a project is listed exactly when it belongs to a group whose name is configured |
| ProjectListing.MaxActivityIsMax | src/RegistryBuilder.php:256-276 | `$mtime` is at least 0, bounds every listed project's activity, and is one of those activities unless it is 0 |
| ProjectListing.MaxActivityMonotone | src/RegistryBuilder.php:266 | more projects never lower `$mtime` |
| ProjectListing.AppendProjects | src/RegistryBuilder.php:264-267 | the page is appended in order and `$mtime` is the maximum over the whole list |
| ProjectListing.CollectProjects | src/RegistryBuilder.php:255-279 | `$all_projects` are the configured groups' projects, or every project when no group is configured; `$mtime` is their maximum activity |
| ProjectCache.Written | src/RegistryBuilder.php:225-232 | what a miss writes reads back as the data it wrote |
| ProjectCache.FetchedRefsMerge | src/RegistryBuilder.php:167-180 | the `$fetch_refs` loop computes the last-write-wins merge of the refs' entries |
| ProjectCache.LastRefWins | src/RegistryBuilder.php:170-173 | a version comes from the last ref producing it, so a tag overrides a branch with the same label |
| ProjectCache.ProjectVersionsFromRefs | src/RegistryBuilder.php:170-173 | every version of a project is the label of one of its refs whose manifest was accepted |
| ProjectCache.RegisteredIdempotent | src/RegistryBuilder.php:205-222 | registration keeps existing hooks, adds at most one, leaves the URL registered, and a second registration changes nothing |
| ProjectCache.FindHook | src/RegistryBuilder.php:209-215 | the search finds a hook exactly when one has the webhook URL |
| ProjectCache.LoadKeepsFiles | src/RegistryBuilder.php:189-234 | a load removes no cache file and leaves one for its project |
| ProjectCache.LoadIdempotent | src/RegistryBuilder.php:197-234 | after a successful load the file is fresh, and loading again returns the same data and changes nothing |
| ProjectCache.StaleRecomputes | src/RegistryBuilder.php:203-232 | a missing or stale file is recomputed from GitLab. It is rewritten with the activity time and is the empty file exactly when there are no packages; other files are untouched |
| ProjectCache.EmptyFileIsKnownEmpty | src/RegistryBuilder.php:197-201 | an empty file not older than the activity is a hit with no packages |
| StaticOverrides.Underscores | src/RegistryBuilder.php:294-296 | the prefix built by the `while` loop is k underscores |
| StaticOverrides.SourceKeyInjective | src/RegistryBuilder.php:294-296 | distinct underscore counts give distinct marker keys |
| StaticOverrides.FreeSlot | src/RegistryBuilder.php:294-297 | the chosen key is the least `_…_source` key that is not set |
| StaticOverrides.FreeSourceKey | src/RegistryBuilder.php:294-297 | the `while` loop stops at exactly that key |
| StaticOverrides.TaggedMarks | src/RegistryBuilder.php:293-303 | tagging sets the free marker of `extra`, creating `extra` when it is unset, to `"static"` and changes nothing else |
| StaticOverrides.TagManifest | src/RegistryBuilder.php:293-303 | tagging a version fails exactly when `extra` is set but not an object; otherwise it gives the tagged version |
| StaticOverrides.TaggedPackage | src/RegistryBuilder.php:292-304 | tagging keeps the package's versions |
| StaticOverrides.TagPackage | src/RegistryBuilder.php:292-304 | every version of a static package is tagged, or the loop fails when one cannot be |
| StaticOverrides.OverlayByEntries | src/RegistryBuilder.php:291-306 | the overlay holds the dynamic and the static names. Every static package is present, tagged; every other dynamic package is unchanged |
| StaticOverrides.MergeStatics | src/RegistryBuilder.php:291-306 | the static loop computes the overlay, or fails when some version cannot be tagged |
| StaticOverrides.DropEmpty | src/RegistryBuilder.php:309 | `array_filter` keeps exactly the non-empty packages, unchanged |
| StaticOverrides.StaticPrecedence | src/RegistryBuilder.php:305 | a non-empty static package replaces the dynamic one of the same name wholesale, each version tagged |
| StaticOverrides.IndexEntries | src/RegistryBuilder.php:284-309 | every index entry is non-empty and comes from a project or the static file; a dynamic package no static one replaces is published unchanged exactly when non-empty |
| StaticOverrides.SecondMarkerExample | src/RegistryBuilder.php:294-298 | a version whose `extra` has `_source` gets `__source` |
| StaticOverrides.FirstMarkerExample | src/RegistryBuilder.php:299-302 | a version without `extra` gets `extra = {_source: static}` |
| WebhookRefs.RemoveAllAbsent | src/RegistryBuilder.php:132-133 | `str_replace` leaves a string without the needle unchanged |
| WebhookRefs.RemoveAllShielded | src/RegistryBuilder.php:132-133 | characters that cannot start the needle pass through `str_replace` unchanged |
| WebhookRefs.StripRefPrefixInverse | src/RegistryBuilder.php:131-133 | stripping the prefix undoes GitLab's `refs/heads/` and `refs/tags/` qualification |
| WebhookRefs.AsWrittenAgreesOnPlainNames | src/RegistryBuilder.php:131-133 | for names that do not contain either prefix, the code as written and the prefix strip agree |
| WebhookRefs.StripBranchNamedLikeTag | src/RegistryBuilder.php:131-133 | `refs/heads/refs/tags/v1.0` becomes `v1.0` as written, but `refs/tags/v1.0` under the prefix strip |
| WebhookRefs.BranchNamedLikeTagBecomesRelease | src/RegistryBuilder.php:91-95 | as written, a push to branch `refs/tags/v1.0` is published as release `v1.0` instead of `dev-refs/tags/v1.0` |
| Registry.PackageNameSource | src/RegistryBuilder.php:244-252 | a package name is truthy. It is the path, or, with mismatches allowed, the validated name in the default branch's manifest |
| Registry.Combine | src/RegistryBuilder.php:285-287 | one iteration aborts exactly when the load throws, or the load has data and the name lookup throws. Otherwise the packages are the earlier ones with the new non-empty data set under a truthy name, or unchanged when the data is empty or the name falsy |
| Registry.LoopNext | src/RegistryBuilder.php:284-288 | one more project: the loop's result is `Combine` of the earlier packages with that project's load and name |
| Registry.LoopAborts | src/RegistryBuilder.php:284-288 | an exception anywhere in the project loop aborts the build |
| Registry.LoopEntries | src/RegistryBuilder.php:284-288 | every collected package is non-empty and is registered under the package name of a listed project |
| Registry.LoopKeepsNames | src/RegistryBuilder.php:284-288 | a completed loop completed every prefix, and a name collected by a prefix is never removed later |
| Registry.LoopKeepsFrom | src/RegistryBuilder.php:284-288 | later turns that yield nothing under a name leave that name's package as it was |
| Registry.LoopCollects | src/RegistryBuilder.php:284-288 | a project whose turn yields a non-empty package under a truthy name has that name published |
| Registry.LoopLastWins | src/RegistryBuilder.php:284-288 | the package published under a name is the one from the last project whose turn yielded data under it |
| Registry.LoopCachesEveryProject | src/RegistryBuilder.php:284-288 | with a load that keeps the cache files and writes its project's, a completed loop leaves a file for every listed project |
| Registry.AssembleCachesEveryProject | src/RegistryBuilder.php:284-288 | a completed loop leaves a cache file for every listed project and removes none |
| Registry.WithRepoUrl | src/RegistryBuilder.php:129 | `<method>_url_to_repo` is set to the payload's `<method>_url`, or is absent when that is missing; every other field and URL is kept |
| ProjectCache.HookTurn | src/RegistryBuilder.php:203-223 | one load changes at most the loaded project's hooks, and never the set of projects with hooks |
| Registry.LoopHooksNext | src/RegistryBuilder.php:284-288 | one more project registers the webhook exactly when its load needs it |
| Registry.LoopHooksAborted | src/RegistryBuilder.php:284-288 | after an exception no further webhook is registered |
| Registry.LoopHooksOnlyRegister | src/RegistryBuilder.php:284-288 | the loop removes no hook: every project ends with its hooks as they were or with the webhook registered among them |
| Registry.LoopHooksKeep | src/RegistryBuilder.php:284-288 | a project that has the webhook keeps it for the rest of the loop |
| Registry.LoopHooksRegister | src/RegistryBuilder.php:284-288 | a turn whose load needs the webhook leaves it registered on that project at the end of the loop |
| Registry.AssembleNext | src/RegistryBuilder.php:284-288 | one more turn of this program's loop: its packages and files are `Combine` of `LoadOutcome`, and its hooks are `HookTurn` |
| Registry.AssembleAborted | src/RegistryBuilder.php:284-288 | an aborted turn aborts the run and registers nothing after it |
| Registry.AssembleRegistersHooks | src/RegistryBuilder.php:197-223 | with `create_webhook` set, a completed build leaves the webhook on every listed project whose turn missed the cache and found packages |
| Registry.WithRepoUrlSource | src/RegistryBuilder.php:129 | the published clone URL of a pushed project is the payload's `<method>_url`, or null |
| Registry.PushKeepsOtherVersions | src/RegistryBuilder.php:139-144 | the upsert adds or replaces the pushed versions and keeps every other stored version |
| Registry.PushAddsRefVersion | src/RegistryBuilder.php:135-142 | an accepted push adds its ref's version and keeps the stored ones |
| Registry.PushedFileServedOnRebuild | src/RegistryBuilder.php:197-199 | the rebuild after a push reads the pushed file, unless GitLab reports later activity |
| Registry.RegistryBuilder.constructor | src/RegistryBuilder.php:13-20 | a builder starts with an empty memo and the given configuration, files and hooks |
| Registry.RegistryBuilder.FetchComposer | src/RegistryBuilder.php:54-75 | one request, and the validated manifest |
| Registry.RegistryBuilder.FetchRef | src/RegistryBuilder.php:84-111 | returns the ref's entry and memoises it. The memo stays sound, and a ref fetched before makes no request |
| Registry.RegistryBuilder.FetchRefs | src/RegistryBuilder.php:167-180 | returns the project's merged versions, or nothing when a listing throws |
| Registry.RegistryBuilder.FetchAll | src/RegistryBuilder.php:170-174 | the loop over branches then tags computes their merge |
| Registry.RegistryBuilder.RegisterHook | src/RegistryBuilder.php:205-222 | fails exactly when the hooks cannot be listed. Otherwise the hooks become `Registered` and `addHook` is called once exactly when no hook had the URL |
| Registry.RegistryBuilder.LoadData | src/RegistryBuilder.php:189-236 | the result and the new files are `LoadOutcome`, and a hit makes no request. The hooks are `HookTurn`: registered exactly on a non-empty miss with `create_webhook`. `addHook` is called once exactly when that registration finds no hook with the URL |
| Registry.RegistryBuilder.GetPackageName | src/RegistryBuilder.php:244-252 | the name is `PackageNameOf`; a missing default branch aborts |
| Registry.RegistryBuilder.CollectOne | src/RegistryBuilder.php:285-287 | one iteration is `Combine` of the load and the name. The hooks are `HookTurn` of the load, and `addHook` is called at most once |
| Registry.RegistryBuilder.CollectPackages | src/RegistryBuilder.php:284-288 | the loop computes `Assemble` over the listed projects, and the hooks are `AssembleHooks`. `addHook` is called at most once per project |
| Registry.RegistryBuilder.Build | src/RegistryBuilder.php:254-313 | regenerates exactly when the index is missing or older than `$mtime`. Otherwise no request is made and nothing changes: files, hooks and memo. When regenerating, the hooks are `AssembleHooks` of the listed projects, with at most one `addHook` per project. On success the index is the overlaid, filtered packages with mtime `now`; an abort leaves the index as it was |
| Registry.AfterPush | src/RegistryBuilder.php:138-144 | writing a push adds or rewrites only the pushed project's cache file |
| Registry.RegistryBuilder.ApplyPush | src/RegistryBuilder.php:128-145 | the cache files become `AfterPush`: the project's file holds the stored versions with the pushed entry upserted, written now. The index is deleted |
| Registry.RegistryBuilder.Update | src/RegistryBuilder.php:123-147 | after a push the index is always rebuilt, from the cache files as `AfterPush` leaves them. It holds the overlaid, filtered packages of that loop with mtime `now`, or stays deleted when the rebuild aborts. The cache files are the loop's, and the hooks are `AssembleHooks` over the pushed files, with at most one `addHook` per project |

## Left out

- `outputFile` (HTTP headers, `readfile`, If-Modified-Since) and `getClient` are the HTTP front door and client construction; not modelled.
- Pagination of the group and project listings, and `users->me()`: the model takes the concatenated pages (`Gitlab.Api.projects`, `Gitlab.Group.projects`) and the first page of groups as given.
- JSON encoding and decoding, base64, `md5(serialize(...))`, `php://input`: manifests are decoded maps, the memo key is the (project, ref) pair, and the push payload is a `PushEvent`.
- Numbers in manifests are integers only; floats are not modelled. `strtotime` is taken as already applied: activity times are integers.
- `Config.php`, `Auth.php`, `AuthWebhook.php` and `htdocs/packages.php` are not part of this model. Their outputs (access method, flags, webhook URL and token, groups) are the `Gitlab.Config` value, constant for the builder's life.
- Directory creation (`mkdir`) and file permissions.
- The order of keys in the written JSON is not modelled; maps are unordered.
- Manifests.AcceptManifest: a `name` that is not a JSON string is refused. With `allow_package_name_mismatch` set, PHP never reaches `strcasecmp` and accepts any non-empty name: a number, `true` or an array. With it unset, a number or boolean is coerced by `strcasecmp`. An array raises a TypeError that the `RuntimeException` handler does not catch, so it aborts the whole build, not just the ref.
- StaticOverrides.DropEmpty: a static package written as an empty JSON object is dropped. PHP keeps it, because a decoded empty object is truthy to `array_filter`. An empty JSON array is dropped in both.
- Registry.RegistryBuilder.RegisterHook: only the listing failure of `hooks()` is modelled as an exception; a failing `addHook()` is not. The hook URL comparison is PHP's loose `==`, modelled as string equality.
- Registry.RegistryBuilder.Build: a static file that fails to decode is not modelled; the static file is given decoded. An uncaught exception (hook listing, default branch lookup, `extra` that is not an object) is modelled as `ok == false`. The cache files written before the abort are then left unspecified.
- Registry.RegistryBuilder.Build and LoadData count only per-project requests in `requests`; the listing calls at the start of `build()` are not counted.
- Registry.RegistryBuilder.ApplyPush: uses the corrected ref-name strip, not the code as written; see Findings.
- Registry.AfterPush: uses the corrected ref-name strip, through `PushedPackage`; see Findings.
- Registry.RegistryBuilder.Update: uses the corrected ref-name strip, through `ApplyPush` and `AfterPush`; see Findings.
- Registry.RegistryBuilder.Build: the listing calls at the start of `build()` (`groups->all`, `groups->projects`, `users->me`, `projects->all`) cannot fail in the model, because `Gitlab.Api` gives the listings as total values. In PHP an exception there aborts `build()` before the loop.
- ProjectListing.CollectProjects: the project listing cannot fail, as above; a failing listing call, which aborts `build()` in PHP, is not modelled.
- Registry.RegistryBuilder.Update: a failing listing call in the rebuild is not modelled, as above. In PHP it leaves the index deleted.
- Registry.RegistryBuilder.ApplyPush: directories are not modelled. update() creates none, so for a project whose namespace directory under `cache/` does not exist yet, `file_put_contents` fails and no cache file is written; the model always writes it.

## Findings

| source | as written | input that shows it | evidently intended | confidence | as-written member | corrected member |
|---|---|---|---|---|---|---|
| src/RegistryBuilder.php:132-133 | `str_replace` deletes `refs/tags/` and `refs/heads/` wherever they occur in the ref | push to branch `refs/tags/v1.0`, i.e. ref `refs/heads/refs/tags/v1.0`: published as release `v1.0` | strip only the leading `refs/heads/` or `refs/tags/`, giving the branch `dev-refs/tags/v1.0` | medium, not executed | WebhookRefs.BranchNamedLikeTagBecomesRelease | WebhookRefs.StripRefPrefixInverse |
