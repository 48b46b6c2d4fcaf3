/** The per-project cache of build()'s $load_data closure, as values: what the cache
    file holds, when it is fresh, what a recomputation yields ($fetch_refs), and the
    webhook registration that a non-empty recomputation triggers. */
module ProjectCache {
  import opened PhpValues
  import opened Gitlab
  import opened Manifests
  import opened Merging
  import opened RefClassifier

  /** The content of cache/<path_with_namespace>.json: the zero-length "no packages"
      file, or a JSON document (None when it is `null`). */
  datatype CacheContent = EmptyFile | Document(data: Option<Versions>)

  datatype CacheFile = CacheFile(content: CacheContent, mtime: int)

  /** The cache hit test: the file exists and is not older than the project's activity. */
  predicate IsFresh(files: map<string, CacheFile>, p: Project) {
    p.path in files && files[p.path].mtime >= p.lastActivity
  }

  /** What a cache hit returns, with every falsy result (`false`, `null`, an empty
      array) read as the empty package. */
  function CachedValue(f: CacheFile): Versions {
    match f.content
    case EmptyFile => map[]
    case Document(None) => map[]
    case Document(Some(d)) => d
  }

  /** What a cache miss writes: the data, or the empty file when there is none. */
  function Written(d: Versions): (c: CacheContent)
    ensures CachedValue(CacheFile(c, 0)) == d
  {
    if d == map[] then EmptyFile else Document(Some(d))
  }

  /** The refs $fetch_refs walks: the branches, then the tags; None when either
      listing throws. */
  function RefsOf(api: Api, id: int): Option<seq<Ref>> {
    match (api.branches(id), api.tags(id))
    case (Some(bs), Some(ts)) => Some(bs + ts)
    case _ => None
  }

  /** The fetch_ref result of each ref, in order. */
  function RefPackages(conf: Config, api: Api, p: Project, refs: seq<Ref>): (r: seq<Versions>)
    ensures |r| == |refs|
    ensures forall i | 0 <= i < |refs| :: r[i] == RefPackage(conf, p, refs[i], api.composerAt(p.id, refs[i].commit))
  {
    seq(|refs|, i requires 0 <= i < |refs| => RefPackage(conf, p, refs[i], api.composerAt(p.id, refs[i].commit)))
  }

  /** $datas after the inner loop of $fetch_refs has assigned the entries of `refs`. */
  function FetchedRefs(conf: Config, api: Api, p: Project, refs: seq<Ref>): Versions
    decreases |refs|
  {
    if refs == [] then map[]
    else
      var last := refs[|refs| - 1];
      FetchedRefs(conf, api, p, refs[..|refs| - 1]) + RefPackage(conf, p, last, api.composerAt(p.id, last.commit))
  }

  /** One more ref assigns its entries over those of the refs before it. */
  lemma FetchedRefsNext(conf: Config, api: Api, p: Project, refs: seq<Ref>, i: nat)
    requires i < |refs|
    ensures FetchedRefs(conf, api, p, refs[..i + 1])
      == FetchedRefs(conf, api, p, refs[..i]) + RefPackage(conf, p, refs[i], api.composerAt(p.id, refs[i].commit))
  {
    assert refs[..i + 1][..i] == refs[..i];
  }

  /** The loop is the last-write-wins merge of the refs' packages. */
  lemma {:induction false} FetchedRefsMerge(conf: Config, api: Api, p: Project, refs: seq<Ref>)
    ensures FetchedRefs(conf, api, p, refs) == MergeAll(RefPackages(conf, api, p, refs))
    decreases |refs|
  {
    if refs != [] {
      var front := refs[..|refs| - 1];
      FetchedRefsMerge(conf, api, p, front);
      assert RefPackages(conf, api, p, refs)[..|refs| - 1] == RefPackages(conf, api, p, front);
    }
  }

  /** $fetch_refs: every ref's package merged, later refs winning; nothing when a
      listing throws. */
  function ProjectVersions(conf: Config, api: Api, p: Project): Versions {
    match RefsOf(api, p.id)
    case None => map[]
    case Some(refs) => FetchedRefs(conf, api, p, refs)
  }

  /** A version of the project comes from the last ref that produces it: a tag
      overrides a branch with the same label. */
  lemma LastRefWins(conf: Config, api: Api, p: Project, refs: seq<Ref>, j: nat)
    requires RefsOf(api, p.id) == Some(refs)
    requires j < |refs| && RefPackage(conf, p, refs[j], api.composerAt(p.id, refs[j].commit)) != map[]
    requires forall i | j < i < |refs| ::
      VersionLabel(refs[i].name) != VersionLabel(refs[j].name)
      || RefPackage(conf, p, refs[i], api.composerAt(p.id, refs[i].commit)) == map[]
    ensures var version := VersionLabel(refs[j].name);
      && version in ProjectVersions(conf, api, p)
      && ProjectVersions(conf, api, p)[version] == RefPackage(conf, p, refs[j], api.composerAt(p.id, refs[j].commit))[version]
  {
    var packages := RefPackages(conf, api, p, refs);
    var version := VersionLabel(refs[j].name);
    FetchedRefsMerge(conf, api, p, refs);
    RefPackageSpec(conf, p, refs[j], api.composerAt(p.id, refs[j].commit));
    forall i | j < i < |refs|
      ensures version !in packages[i]
    {
      RefPackageSpec(conf, p, refs[i], api.composerAt(p.id, refs[i].commit));
    }
    LastWriteWins(packages, version, j);
  }

  /** Every version of a project is the label of one of its refs whose manifest was accepted. */
  lemma ProjectVersionsFromRefs(conf: Config, api: Api, p: Project, version: string)
    requires version in ProjectVersions(conf, api, p)
    ensures exists r | r in RefsOf(api, p.id).value ::
      VersionLabel(r.name) == version
      && AcceptManifest(api.composerAt(p.id, r.commit), p.path, conf.allowNameMismatch).Some?
  {
    var refs := RefsOf(api, p.id).value;
    var packages := RefPackages(conf, api, p, refs);
    FetchedRefsMerge(conf, api, p, refs);
    var i :| 0 <= i < |packages| && version in packages[i];
    RefPackageSpec(conf, p, refs[i], api.composerAt(p.id, refs[i].commit));
    assert refs[i] in refs;
  }

  /** The hook addHook() creates: tag push events, and the secret token when it is
      configured and truthy. */
  function NewHook(conf: Config): Hook {
    Hook(conf.webhookUrl, true,
      if conf.webhookToken.Some? && StrTruthy(conf.webhookToken.value) then conf.webhookToken else None)
  }

  predicate HasHook(hs: seq<Hook>, url: string) {
    exists i | 0 <= i < |hs| :: hs[i].url == url
  }

  /** The hooks of a project after registration: unchanged when one already has the
      webhook URL, otherwise with the new hook appended. */
  function Registered(hs: seq<Hook>, conf: Config): seq<Hook> {
    if HasHook(hs, conf.webhookUrl) then hs else hs + [NewHook(conf)]
  }

  /** Registration is idempotent, keeps every existing hook, adds at most one, and
      leaves the webhook URL registered. */
  lemma RegisteredIdempotent(hs: seq<Hook>, conf: Config)
    ensures HasHook(Registered(hs, conf), conf.webhookUrl)
    ensures Registered(Registered(hs, conf), conf) == Registered(hs, conf)
    ensures |hs| <= |Registered(hs, conf)| <= |hs| + 1
    ensures Registered(hs, conf)[..|hs|] == hs
  {
    if !HasHook(hs, conf.webhookUrl) {
      var r := hs + [NewHook(conf)];
      assert r[|hs|].url == conf.webhookUrl;
    }
  }

  /** The `foreach ($allHooks as $hook)` search with its `break`. */
  method FindHook(hs: seq<Hook>, url: string) returns (found: bool)
    ensures found == HasHook(hs, url)
  {
    found := false;
    var i := 0;
    while i < |hs|
      invariant 0 <= i <= |hs|
      invariant !found ==> forall j | 0 <= j < i :: hs[j].url != url
      invariant found ==> HasHook(hs, url)
    {
      if hs[i].url == url {
        found := true;
        break;
      }
      i := i + 1;
    }
  }

  /** $load_data registers the webhook on a miss that finds packages, when
      create_webhook is set. */
  predicate HookNeeded(conf: Config, api: Api, files: map<string, CacheFile>, p: Project) {
    !IsFresh(files, p) && ProjectVersions(conf, api, p) != map[] && conf.createWebhook
  }

  /** The hooks after one load of project `id`: registered when the load needs the
      webhook and the project's hooks can be listed, otherwise unchanged. */
  function HookTurn(conf: Config, hooks: map<int, seq<Hook>>, needed: bool, id: int): (r: map<int, seq<Hook>>)
    ensures r.Keys == hooks.Keys
    ensures forall i | i in hooks && i != id :: r[i] == hooks[i]
  {
    if needed && id in hooks then hooks[id := Registered(hooks[id], conf)] else hooks
  }

  /** $load_data as a function of the cache files: the package and the new cache
      files, or None when registering the webhook throws because the project's hooks
      cannot be listed (`hookIds` are the projects whose hooks can be). */
  function LoadOutcome(conf: Config, api: Api, hookIds: set<int>, files: map<string, CacheFile>, p: Project)
    : Option<(Versions, map<string, CacheFile>)>
  {
    if IsFresh(files, p) then Some((CachedValue(files[p.path]), files))
    else
      var d := ProjectVersions(conf, api, p);
      if d != map[] && conf.createWebhook && p.id !in hookIds then None
      else Some((d, files[p.path := CacheFile(Written(d), p.lastActivity)]))
  }

  /** A load keeps every cache file and leaves one for its project. */
  lemma LoadKeepsFiles(conf: Config, api: Api, hookIds: set<int>, files: map<string, CacheFile>, p: Project)
    requires LoadOutcome(conf, api, hookIds, files, p).Some?
    ensures files.Keys <= LoadOutcome(conf, api, hookIds, files, p).value.1.Keys
    ensures p.path in LoadOutcome(conf, api, hookIds, files, p).value.1
  {
  }

  /** Loading twice with unchanged activity: the first load leaves a fresh file, and
      the second is a hit that returns the same package and changes nothing. */
  lemma LoadIdempotent(conf: Config, api: Api, hookIds: set<int>, files: map<string, CacheFile>, p: Project)
    requires LoadOutcome(conf, api, hookIds, files, p).Some?
    ensures var (d, after) := LoadOutcome(conf, api, hookIds, files, p).value;
      IsFresh(after, p) && LoadOutcome(conf, api, hookIds, after, p) == Some((d, after))
  {
    if !IsFresh(files, p) {
      var d := ProjectVersions(conf, api, p);
      assert CachedValue(CacheFile(Written(d), p.lastActivity)) == d;
    }
  }

  /** A stale or missing cache file is recomputed from GitLab and rewritten with the
      project's activity time; only that file changes. */
  lemma StaleRecomputes(conf: Config, api: Api, hookIds: set<int>, files: map<string, CacheFile>, p: Project)
    requires !IsFresh(files, p)
    requires LoadOutcome(conf, api, hookIds, files, p).Some?
    ensures var (d, after) := LoadOutcome(conf, api, hookIds, files, p).value;
      && d == ProjectVersions(conf, api, p)
      && after.Keys == files.Keys + {p.path}
      && after[p.path].mtime == p.lastActivity
      && (after[p.path].content == EmptyFile <==> d == map[])
      && (forall path | path in files && path != p.path :: after[path] == files[path])
  {
  }

  /** An empty cache file is a hit meaning "no packages": nothing is fetched again
      until the project's activity moves past the file's time. */
  lemma EmptyFileIsKnownEmpty(conf: Config, api: Api, hookIds: set<int>, files: map<string, CacheFile>, p: Project)
    requires p.path in files && files[p.path] == CacheFile(EmptyFile, p.lastActivity)
    ensures LoadOutcome(conf, api, hookIds, files, p) == Some((map[], files))
  {
  }
}
