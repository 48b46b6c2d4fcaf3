/** The RegistryBuilder object: the ref memo, the per-project cache files, the
    project hooks it registers and the packages.json index it (re)writes, with the
    build() and update() entry points. GitLab is the oracle `api`; the file system
    is the `cacheFiles` and `packagesFile` fields. */
module Registry {
  import opened PhpValues
  import opened Gitlab
  import opened RefClassifier
  import opened Manifests
  import opened Merging
  import opened ProjectListing
  import opened StaticOverrides
  import opened WebhookRefs
  import opened ProjectCache

  /** packages.json: the `packages` object and the file's modification time. */
  datatype IndexFile = IndexFile(packages: map<string, Versions>, mtime: int)

  /** The fields of a push-event payload that update() reads. */
  datatype PushEvent = PushEvent(project: Project, ref: string, checkoutSha: string)

  /** The name that $get_package_name gives a version entry: the manifest's name. */
  function DeclaredName(vs: Versions, version: string): Option<string> {
    if version in vs then NameOf(vs[version]) else None
  }

  /** $get_package_name: None when the default branch cannot be fetched (the
      exception aborts build()); otherwise the name, or Some(None) when it is falsy.
      With name mismatches allowed it is the name in the default branch's
      composer.json, else the project path. */
  function PackageNameOf(conf: Config, api: Api, p: Project): Option<Option<string>> {
    if conf.allowNameMismatch then
      match api.branch(p.id, p.defaultBranch)
      case None => None
      case Some(b) => Some(DeclaredName(RefPackage(conf, p, b, api.composerAt(p.id, b.commit)), VersionLabel(b.name)))
    else
      Some(if StrTruthy(p.path) then Some(p.path) else None)
  }

  /** Where a package name comes from: the path, or the validated name of the
      default branch's manifest. */
  lemma PackageNameSource(conf: Config, api: Api, p: Project, n: string)
    requires PackageNameOf(conf, api, p) == Some(Some(n))
    ensures StrTruthy(n)
    ensures !conf.allowNameMismatch ==> n == p.path
    ensures conf.allowNameMismatch ==>
      var b := api.branch(p.id, p.defaultBranch).value;
      var m := AcceptManifest(api.composerAt(p.id, b.commit), p.path, true);
      m.Some? && m.value["name"] == JStr(n)
  {
    if conf.allowNameMismatch {
      var b := api.branch(p.id, p.defaultBranch).value;
      var reply := api.composerAt(p.id, b.commit);
      RefPackageName(conf, p, b, reply);
    }
  }

  /** What one iteration of build()'s project loop does with the outcome of
      $load_data and of $get_package_name: abort on an exception, skip a falsy
      package or name, otherwise register the package under the name. */
  function Combine(packages: map<string, Versions>, loaded: Option<(Versions, map<string, CacheFile>)>,
                   name: Option<Option<string>>)
    : (r: Option<(map<string, Versions>, map<string, CacheFile>)>)
    ensures r.Some? <==> loaded.Some? && (loaded.value.0 != map[] ==> name.Some?)
    ensures r.Some? ==> r.value.1 == loaded.value.1
    ensures r.Some? && loaded.value.0 != map[] && name.value.Some? ==>
      r.value.0 == packages[name.value.value := loaded.value.0]
    ensures r.Some? && (loaded.value.0 == map[] || name == Some(None)) ==> r.value.0 == packages
  {
    match loaded
    case None => None
    case Some((d, after)) =>
      if d == map[] then Some((packages, after))
      else
        match name
        case None => None
        case Some(None) => Some((packages, after))
        case Some(Some(n)) => Some((packages[n := d], after))
  }

  /** What $load_data makes of one project given the cache files, and what
      $get_package_name returns for it. */
  type Loader = (map<string, CacheFile>, Project) -> Option<(Versions, map<string, CacheFile>)>
  type Namer = Project -> Option<Option<string>>

  /** build()'s project loop over `ps`, in order, for a given $load_data and
      $get_package_name: the packages collected and the cache files, or None once an
      exception has aborted the build. */
  function ProjectLoop(load: Loader, name: Namer, files: map<string, CacheFile>, ps: seq<Project>)
    : Option<(map<string, Versions>, map<string, CacheFile>)>
    decreases |ps|
  {
    if ps == [] then Some((map[], files))
    else
      match ProjectLoop(load, name, files, ps[..|ps| - 1])
      case None => None
      case Some((packages, current)) => Combine(packages, load(current, ps[|ps| - 1]), name(ps[|ps| - 1]))
  }

  function LoadsOf(conf: Config, api: Api, hookIds: set<int>): Loader {
    (files, p) => LoadOutcome(conf, api, hookIds, files, p)
  }

  function NamesOf(conf: Config, api: Api): Namer {
    p => PackageNameOf(conf, api, p)
  }

  /** build()'s project loop with this program's $load_data and $get_package_name. */
  function Assemble(conf: Config, api: Api, hookIds: set<int>, files: map<string, CacheFile>, ps: seq<Project>)
    : Option<(map<string, Versions>, map<string, CacheFile>)>
  {
    ProjectLoop(LoadsOf(conf, api, hookIds), NamesOf(conf, api), files, ps)
  }

  /** One more project: the loop's result is what Combine makes of the project's
      load outcome and package name. */
  lemma LoopNext(load: Loader, name: Namer, files: map<string, CacheFile>,
                 ps: seq<Project>, i: nat, packages: map<string, Versions>, current: map<string, CacheFile>)
    requires i < |ps| && ProjectLoop(load, name, files, ps[..i]) == Some((packages, current))
    ensures ProjectLoop(load, name, files, ps[..i + 1]) == Combine(packages, load(current, ps[i]), name(ps[i]))
  {
    assert ps[..i + 1][..i] == ps[..i];
  }

  /** An exception ends the loop: once a prefix has aborted, so has the whole run. */
  lemma {:induction false} LoopAborts(load: Loader, name: Namer, files: map<string, CacheFile>, ps: seq<Project>, k: nat)
    requires k <= |ps| && ProjectLoop(load, name, files, ps[..k]) == None
    ensures ProjectLoop(load, name, files, ps) == None
    decreases |ps| - k
  {
    if k < |ps| {
      assert ps[..k + 1][..k] == ps[..k];
      LoopAborts(load, name, files, ps, k + 1);
    } else {
      assert ps[..k] == ps;
    }
  }

  /** Some project of `ps` has the package name `n`. */
  ghost predicate NamedBy(name: Namer, ps: seq<Project>, n: string) {
    exists p | p in ps :: name(p) == Some(Some(n))
  }

  /** Every collected package is non-empty and is registered under the package
      name of one of the listed projects. */
  lemma {:induction false} LoopEntries(load: Loader, name: Namer, files: map<string, CacheFile>, ps: seq<Project>)
    requires ProjectLoop(load, name, files, ps).Some?
    ensures var packages := ProjectLoop(load, name, files, ps).value.0;
      forall n | n in packages :: packages[n] != map[] && NamedBy(name, ps, n)
  {
    if ps != [] {
      var front := ps[..|ps| - 1];
      var last := ps[|ps| - 1];
      LoopEntries(load, name, files, front);
      var packages := ProjectLoop(load, name, files, front).value.0;
      var r := ProjectLoop(load, name, files, ps).value.0;
      forall n | n in r
        ensures r[n] != map[] && NamedBy(name, ps, n)
      {
        if n in packages && r[n] == packages[n] {
          var p :| p in front && name(p) == Some(Some(n));
          assert p in ps;
        } else {
          assert last in ps;
        }
      }
    }
  }

  /** The turn of project i in the loop over `ps` yields a non-empty package under
      the name `n`: the loop is still running, the load returns data, and the
      package name is `n`. */
  predicate YieldsUnder(load: Loader, name: Namer, files: map<string, CacheFile>, ps: seq<Project>, i: nat, n: string)
    requires i < |ps|
  {
    var acc := ProjectLoop(load, name, files, ps[..i]);
    && acc.Some?
    && var loaded := load(acc.value.1, ps[i]);
    && loaded.Some? && loaded.value.0 != map[]
    && name(ps[i]) == Some(Some(n))
  }

  /** A completed loop also completed every prefix, and no package collected by a
      prefix disappears later: a later project can only replace it. */
  lemma {:induction false} LoopKeepsNames(load: Loader, name: Namer, files: map<string, CacheFile>,
                                          ps: seq<Project>, k: nat)
    requires k <= |ps| && ProjectLoop(load, name, files, ps).Some?
    ensures ProjectLoop(load, name, files, ps[..k]).Some?
    ensures ProjectLoop(load, name, files, ps[..k]).value.0.Keys <= ProjectLoop(load, name, files, ps).value.0.Keys
    decreases |ps| - k
  {
    if k == |ps| {
      assert ps[..k] == ps;
    } else {
      LoopKeepsNames(load, name, files, ps, k + 1);
      assert ps[..k + 1][..k] == ps[..k];
      var acc := ProjectLoop(load, name, files, ps[..k]).value;
      LoopNext(load, name, files, ps, k, acc.0, acc.1);
    }
  }

  /** Once the first k turns have set `n` to `d`, no later turn that yields nothing
      under `n` changes it. */
  lemma {:induction false} LoopKeepsFrom(load: Loader, name: Namer, files: map<string, CacheFile>,
                                         ps: seq<Project>, k: nat, n: string, d: Versions)
    requires k <= |ps| && ProjectLoop(load, name, files, ps).Some?
    requires forall i | k <= i < |ps| :: !YieldsUnder(load, name, files, ps, i, n)
    requires ProjectLoop(load, name, files, ps[..k]).Some?
    requires var packages := ProjectLoop(load, name, files, ps[..k]).value.0; n in packages && packages[n] == d
    ensures n in ProjectLoop(load, name, files, ps).value.0 && ProjectLoop(load, name, files, ps).value.0[n] == d
    decreases |ps| - k
  {
    if k == |ps| {
      assert ps[..k] == ps;
    } else {
      var acc := ProjectLoop(load, name, files, ps[..k]).value;
      LoopNext(load, name, files, ps, k, acc.0, acc.1);
      LoopKeepsNames(load, name, files, ps, k + 1);
      assert !YieldsUnder(load, name, files, ps, k, n);
      LoopKeepsFrom(load, name, files, ps, k + 1, n, d);
    }
  }

  /** The package of the last project to yield data under a name is the one
      published under it. */
  lemma LoopLastWins(load: Loader, name: Namer, files: map<string, CacheFile>, ps: seq<Project>, j: nat, n: string)
    requires j < |ps| && YieldsUnder(load, name, files, ps, j, n)
    requires forall i | j < i < |ps| :: !YieldsUnder(load, name, files, ps, i, n)
    requires ProjectLoop(load, name, files, ps).Some?
    ensures var acc := ProjectLoop(load, name, files, ps[..j]).value;
      var packages := ProjectLoop(load, name, files, ps).value.0;
      n in packages && packages[n] == load(acc.1, ps[j]).value.0
  {
    var acc := ProjectLoop(load, name, files, ps[..j]).value;
    var d := load(acc.1, ps[j]).value.0;
    LoopNext(load, name, files, ps, j, acc.0, acc.1);
    LoopKeepsNames(load, name, files, ps, j + 1);
    LoopKeepsFrom(load, name, files, ps, j + 1, n, d);
  }

  /** Every project whose turn yields a non-empty package under a name has that
      name published by a completed loop. */
  lemma LoopCollects(load: Loader, name: Namer, files: map<string, CacheFile>, ps: seq<Project>, j: nat, n: string)
    requires j < |ps| && YieldsUnder(load, name, files, ps, j, n)
    requires ProjectLoop(load, name, files, ps).Some?
    ensures n in ProjectLoop(load, name, files, ps).value.0
  {
    LoopKeepsNames(load, name, files, ps, j + 1);
    var acc := ProjectLoop(load, name, files, ps[..j]).value;
    LoopNext(load, name, files, ps, j, acc.0, acc.1);
  }

  /** With a load that keeps every cache file and leaves one for its project, a
      completed loop leaves a cache file for every listed project. */
  lemma {:induction false} LoopCachesEveryProject(load: Loader, name: Namer, files: map<string, CacheFile>,
                                                  ps: seq<Project>)
    requires forall f, p :: load(f, p).Some? ==> f.Keys <= load(f, p).value.1.Keys && p.path in load(f, p).value.1
    requires ProjectLoop(load, name, files, ps).Some?
    ensures var after := ProjectLoop(load, name, files, ps).value.1;
      && files.Keys <= after.Keys
      && forall p | p in ps :: p.path in after
  {
    if ps != [] {
      var front := ps[..|ps| - 1];
      LoopCachesEveryProject(load, name, files, front);
      assert forall p | p in ps :: p in front || p == ps[|ps| - 1];
    }
  }

  /** build()'s loop leaves a cache file for every listed project and removes none. */
  lemma AssembleCachesEveryProject(conf: Config, api: Api, hookIds: set<int>,
                                   files: map<string, CacheFile>, ps: seq<Project>)
    requires Assemble(conf, api, hookIds, files, ps).Some?
    ensures var after := Assemble(conf, api, hookIds, files, ps).value.1;
      && files.Keys <= after.Keys
      && forall p | p in ps :: p.path in after
  {
    var load := LoadsOf(conf, api, hookIds);
    forall f, p | load(f, p).Some?
      ensures f.Keys <= load(f, p).value.1.Keys && p.path in load(f, p).value.1
    {
      LoadKeepsFiles(conf, api, hookIds, f, p);
    }
    LoopCachesEveryProject(load, NamesOf(conf, api), files, ps);
  }

  /** Whether $load_data registers the webhook for a project, given the cache files. */
  type HookTest = (map<string, CacheFile>, Project) -> bool

  /** The projects' hooks after build()'s loop over `ps`: each turn the loop reaches
      registers the webhook when its load needs it; the turns after an exception
      never run. */
  function LoopHooks(load: Loader, name: Namer, needs: HookTest, conf: Config,
                     hooks: map<int, seq<Hook>>, files: map<string, CacheFile>, ps: seq<Project>)
    : map<int, seq<Hook>>
    decreases |ps|
  {
    if ps == [] then hooks
    else
      var before := LoopHooks(load, name, needs, conf, hooks, files, ps[..|ps| - 1]);
      match ProjectLoop(load, name, files, ps[..|ps| - 1])
      case None => before
      case Some((_, current)) => HookTurn(conf, before, needs(current, ps[|ps| - 1]), ps[|ps| - 1].id)
  }

  function NeedsOf(conf: Config, api: Api): HookTest {
    (files, p) => HookNeeded(conf, api, files, p)
  }

  /** The hooks after build()'s loop with this program's $load_data. */
  function AssembleHooks(conf: Config, api: Api, hooks: map<int, seq<Hook>>,
                         files: map<string, CacheFile>, ps: seq<Project>): map<int, seq<Hook>>
  {
    LoopHooks(LoadsOf(conf, api, hooks.Keys), NamesOf(conf, api), NeedsOf(conf, api), conf, hooks, files, ps)
  }

  /** One more project: its turn registers the webhook when its load needs it. */
  lemma LoopHooksNext(load: Loader, name: Namer, needs: HookTest, conf: Config, hooks: map<int, seq<Hook>>,
                      files: map<string, CacheFile>, ps: seq<Project>, i: nat,
                      packages: map<string, Versions>, current: map<string, CacheFile>)
    requires i < |ps| && ProjectLoop(load, name, files, ps[..i]) == Some((packages, current))
    ensures LoopHooks(load, name, needs, conf, hooks, files, ps[..i + 1])
         == HookTurn(conf, LoopHooks(load, name, needs, conf, hooks, files, ps[..i]), needs(current, ps[i]), ps[i].id)
  {
    assert ps[..i + 1][..i] == ps[..i];
  }

  /** After an exception no further webhook is registered. */
  lemma {:induction false} LoopHooksAborted(load: Loader, name: Namer, needs: HookTest, conf: Config,
                                            hooks: map<int, seq<Hook>>, files: map<string, CacheFile>,
                                            ps: seq<Project>, k: nat)
    requires k <= |ps| && ProjectLoop(load, name, files, ps[..k]) == None
    ensures LoopHooks(load, name, needs, conf, hooks, files, ps)
         == LoopHooks(load, name, needs, conf, hooks, files, ps[..k])
    decreases |ps| - k
  {
    if k < |ps| {
      assert ps[..k + 1][..k] == ps[..k];
      LoopHooksAborted(load, name, needs, conf, hooks, files, ps, k + 1);
    } else {
      assert ps[..k] == ps;
    }
  }

  /** The loop never removes a hook nor a project's hook list: every project ends
      with its hooks as they were, or with the webhook registered among them. */
  lemma {:induction false} LoopHooksOnlyRegister(load: Loader, name: Namer, needs: HookTest, conf: Config,
                                                 hooks: map<int, seq<Hook>>, files: map<string, CacheFile>,
                                                 ps: seq<Project>)
    ensures var after := LoopHooks(load, name, needs, conf, hooks, files, ps);
      && after.Keys == hooks.Keys
      && forall id | id in hooks :: after[id] == hooks[id] || after[id] == Registered(hooks[id], conf)
  {
    if ps != [] {
      var front := ps[..|ps| - 1];
      LoopHooksOnlyRegister(load, name, needs, conf, hooks, files, front);
      var before := LoopHooks(load, name, needs, conf, hooks, files, front);
      var after := LoopHooks(load, name, needs, conf, hooks, files, ps);
      forall id | id in hooks
        ensures after[id] == hooks[id] || after[id] == Registered(hooks[id], conf)
      {
        RegisteredIdempotent(hooks[id], conf);
      }
    }
  }

  /** A project that already has the webhook keeps it for the rest of the loop. */
  lemma {:induction false} LoopHooksKeep(load: Loader, name: Namer, needs: HookTest, conf: Config,
                                         hooks: map<int, seq<Hook>>, files: map<string, CacheFile>,
                                         ps: seq<Project>, k: nat, id: int)
    requires k <= |ps|
    requires var mid := LoopHooks(load, name, needs, conf, hooks, files, ps[..k]);
      id in mid && HasHook(mid[id], conf.webhookUrl)
    ensures var after := LoopHooks(load, name, needs, conf, hooks, files, ps);
      id in after && HasHook(after[id], conf.webhookUrl)
    decreases |ps| - k
  {
    if k == |ps| {
      assert ps[..k] == ps;
    } else {
      assert ps[..k + 1][..k] == ps[..k];
      var mid := LoopHooks(load, name, needs, conf, hooks, files, ps[..k]);
      RegisteredIdempotent(mid[id], conf);
      LoopHooksKeep(load, name, needs, conf, hooks, files, ps, k + 1, id);
    }
  }

  /** A turn whose load needs the webhook, for a project whose hooks can be listed,
      leaves the webhook registered on that project at the end of the loop. */
  lemma LoopHooksRegister(load: Loader, name: Namer, needs: HookTest, conf: Config,
                          hooks: map<int, seq<Hook>>, files: map<string, CacheFile>, ps: seq<Project>, j: nat)
    requires j < |ps| && ps[j].id in hooks
    requires var acc := ProjectLoop(load, name, files, ps[..j]); acc.Some? && needs(acc.value.1, ps[j])
    ensures var after := LoopHooks(load, name, needs, conf, hooks, files, ps);
      ps[j].id in after && HasHook(after[ps[j].id], conf.webhookUrl)
  {
    var acc := ProjectLoop(load, name, files, ps[..j]).value;
    LoopHooksNext(load, name, needs, conf, hooks, files, ps, j, acc.0, acc.1);
    LoopHooksOnlyRegister(load, name, needs, conf, hooks, files, ps[..j]);
    var before := LoopHooks(load, name, needs, conf, hooks, files, ps[..j]);
    RegisteredIdempotent(before[ps[j].id], conf);
    LoopHooksKeep(load, name, needs, conf, hooks, files, ps, j + 1, ps[j].id);
  }

  /** One more turn of build()'s loop with this program's $load_data: the packages,
      cache files and hooks it leaves. */
  lemma AssembleNext(conf: Config, api: Api, hooks: map<int, seq<Hook>>, files: map<string, CacheFile>,
                     ps: seq<Project>, i: nat, packages: map<string, Versions>, current: map<string, CacheFile>)
    requires i < |ps| && Assemble(conf, api, hooks.Keys, files, ps[..i]) == Some((packages, current))
    ensures Assemble(conf, api, hooks.Keys, files, ps[..i + 1])
         == Combine(packages, LoadOutcome(conf, api, hooks.Keys, current, ps[i]), PackageNameOf(conf, api, ps[i]))
    ensures AssembleHooks(conf, api, hooks, files, ps[..i + 1])
         == HookTurn(conf, AssembleHooks(conf, api, hooks, files, ps[..i]), HookNeeded(conf, api, current, ps[i]), ps[i].id)
  {
    var load, name, needs := LoadsOf(conf, api, hooks.Keys), NamesOf(conf, api), NeedsOf(conf, api);
    LoopNext(load, name, files, ps, i, packages, current);
    LoopHooksNext(load, name, needs, conf, hooks, files, ps, i, packages, current);
  }

  /** A turn that aborts build()'s loop aborts the whole run and registers nothing
      after it. */
  lemma AssembleAborted(conf: Config, api: Api, hooks: map<int, seq<Hook>>, files: map<string, CacheFile>,
                        ps: seq<Project>, k: nat)
    requires k <= |ps| && Assemble(conf, api, hooks.Keys, files, ps[..k]) == None
    ensures Assemble(conf, api, hooks.Keys, files, ps) == None
    ensures AssembleHooks(conf, api, hooks, files, ps) == AssembleHooks(conf, api, hooks, files, ps[..k])
  {
    var load, name, needs := LoadsOf(conf, api, hooks.Keys), NamesOf(conf, api), NeedsOf(conf, api);
    LoopAborts(load, name, files, ps, k);
    LoopHooksAborted(load, name, needs, conf, hooks, files, ps, k);
  }

  /** With create_webhook set, a completed build leaves the webhook on every listed
      project whose turn missed the cache and found packages. Such a project's
      hooks could be listed, or the build would have aborted. */
  lemma AssembleRegistersHooks(conf: Config, api: Api, hooks: map<int, seq<Hook>>,
                               files: map<string, CacheFile>, ps: seq<Project>, j: nat)
    requires Assemble(conf, api, hooks.Keys, files, ps).Some?
    requires j < |ps| && conf.createWebhook
    requires var acc := Assemble(conf, api, hooks.Keys, files, ps[..j]);
      acc.Some? && !IsFresh(acc.value.1, ps[j]) && ProjectVersions(conf, api, ps[j]) != map[]
    ensures var after := AssembleHooks(conf, api, hooks, files, ps);
      ps[j].id in after && HasHook(after[ps[j].id], conf.webhookUrl)
  {
    var load := LoadsOf(conf, api, hooks.Keys);
    var name := NamesOf(conf, api);
    var acc := ProjectLoop(load, name, files, ps[..j]).value;
    LoopKeepsNames(load, name, files, ps, j + 1);
    LoopNext(load, name, files, ps, j, acc.0, acc.1);
    assert LoadOutcome(conf, api, hooks.Keys, acc.1, ps[j]).Some?;
    LoopHooksRegister(load, name, NeedsOf(conf, api), conf, hooks, files, ps, j);
  }

  /** update(): `$project[<method>_url_to_repo] = $project[<method>_url]` (null when
      the payload lacks the field). */
  function WithRepoUrl(p: Project, access: AccessMethod): (r: Project)
    ensures r.id == p.id && r.path == p.path && r.lastActivity == p.lastActivity && r.defaultBranch == p.defaultBranch
    ensures var from, to := MethodName(access) + "_url", MethodName(access) + "_url_to_repo";
      && (from in p.urls <==> to in r.urls)
      && (from in p.urls ==> r.urls[to] == p.urls[from])
      && (forall k | k in p.urls && k != to :: k in r.urls && r.urls[k] == p.urls[k])
      && (forall k | k in r.urls && k != to :: k in p.urls)
  {
    var from := MethodName(access) + "_url";
    var to := MethodName(access) + "_url_to_repo";
    p.(urls := if from in p.urls then p.urls[to := p.urls[from]] else p.urls - {to})
  }

  /** The published clone URL of a webhook's project is the payload's <method>_url. */
  lemma WithRepoUrlSource(p: Project, access: AccessMethod)
    ensures var from := MethodName(access) + "_url";
      SourceUrl(WithRepoUrl(p, access), access) == if from in p.urls then JStr(p.urls[from]) else JNull
  {
  }

  /** The ref a push event names, with its qualifying prefix stripped. */
  function PushedRef(event: PushEvent): Ref {
    Ref(StripRefPrefix(event.ref), event.checkoutSha)
  }

  /** The package entry update() fetches for a push event. */
  function PushedPackage(conf: Config, api: Api, event: PushEvent): Versions {
    var p := WithRepoUrl(event.project, conf.access);
    var ref := PushedRef(event);
    RefPackage(conf, p, ref, api.composerAt(p.id, ref.commit))
  }

  /** What update() reads from a project's cache file: None when the file is missing,
      empty or `null`. */
  function StoredBefore(files: map<string, CacheFile>, path: string): Option<Versions> {
    if path !in files then None
    else match files[path].content
      case EmptyFile => None
      case Document(d) => d
  }

  /** What update() writes back: the stored versions with the fetched entry upserted,
      or `null` when there was nothing stored and nothing was fetched. */
  function Pushed(before: Option<Versions>, fetched: Versions): CacheContent {
    if before.None? && fetched == map[] then Document(None)
    else Document(Some(MergeAll([if before.Some? then before.value else map[], fetched])))
  }

  /** The cache files after update() has written a push into its project's file
      at time `now`. */
  function AfterPush(conf: Config, api: Api, files: map<string, CacheFile>, event: PushEvent, now: int)
    : (r: map<string, CacheFile>)
    ensures r.Keys == files.Keys + {event.project.path}
    ensures forall path | path in files && path != event.project.path :: r[path] == files[path]
  {
    var path := event.project.path;
    files[path := CacheFile(Pushed(StoredBefore(files, path), PushedPackage(conf, api, event)), now)]
  }

  /** The upsert keeps every stored version that the push does not touch and adds or
      replaces the pushed one. */
  lemma PushKeepsOtherVersions(before: Option<Versions>, fetched: Versions)
    ensures var after := CachedValue(CacheFile(Pushed(before, fetched), 0));
      var stored := if before.Some? then before.value else map[];
      && after.Keys == stored.Keys + fetched.Keys
      && (forall v | v in fetched :: after[v] == fetched[v])
      && (forall v | v in stored && v !in fetched :: after[v] == stored[v])
  {
    var stored := if before.Some? then before.value else map[];
    UpsertKeepsOthers(stored, fetched);
  }

  /** A push of a ref whose manifest is accepted adds that ref's version to the
      project's cache file and keeps the versions already there. */
  lemma PushAddsRefVersion(conf: Config, api: Api, event: PushEvent, before: Option<Versions>)
    requires PushedPackage(conf, api, event) != map[]
    ensures var after := CachedValue(CacheFile(Pushed(before, PushedPackage(conf, api, event)), 0));
      && VersionLabel(StripRefPrefix(event.ref)) in after
      && (before.Some? ==> before.value.Keys <= after.Keys)
  {
    PushKeepsOtherVersions(before, PushedPackage(conf, api, event));
  }

  /** The rebuild that follows a push reads the pushed cache file back for a listed
      project with that path, unless GitLab reports activity later than the push. */
  lemma PushedFileServedOnRebuild(conf: Config, api: Api, hookIds: set<int>, files: map<string, CacheFile>,
                                  content: CacheContent, now: int, q: Project)
    requires q.lastActivity <= now
    ensures var pushed := files[q.path := CacheFile(content, now)];
      LoadOutcome(conf, api, hookIds, pushed, q) == Some((CachedValue(CacheFile(content, now)), pushed))
  {
  }

  class RegistryBuilder {
    const conf: Config
    const api: Api
    /** The decoded static file, None when it does not exist. */
    const staticFile: Option<map<string, Versions>>

    /** The hooks of each project whose hooks GitLab lists. */
    var hooks: map<int, seq<Hook>>
    /** fetch_ref's `static $ref_cache`, keyed by the project and the ref. */
    var refCache: map<(Project, Ref), Versions>
    /** cache/<path_with_namespace>.json, by path. */
    var cacheFiles: map<string, CacheFile>
    var packagesFile: Option<IndexFile>
    /** The per-project GitLab requests made so far, and how many of them were addHook(). */
    ghost var requests: nat
    ghost var hooksAdded: nat

    /** Every memo entry is what fetch_ref computes for its key. */
    ghost predicate Valid()
      reads this
    {
      forall key | key in refCache ::
        refCache[key] == RefPackage(conf, key.0, key.1, api.composerAt(key.0.id, key.1.commit))
    }

    constructor(conf: Config, api: Api, staticFile: Option<map<string, Versions>>, hooks: map<int, seq<Hook>>,
                cacheFiles: map<string, CacheFile>, packagesFile: Option<IndexFile>)
      ensures Valid()
      ensures this.conf == conf && this.api == api && this.staticFile == staticFile
      ensures this.hooks == hooks && this.cacheFiles == cacheFiles && this.packagesFile == packagesFile
      ensures refCache == map[] && requests == 0 && hooksAdded == 0
    {
      this.conf := conf;
      this.api := api;
      this.staticFile := staticFile;
      this.hooks := hooks;
      this.refCache := map[];
      this.cacheFiles := cacheFiles;
      this.packagesFile := packagesFile;
      this.requests := 0;
      this.hooksAdded := 0;
    }

    /** fetch_composer: one getFile() request, then the validation. */
    method FetchComposer(p: Project, commit: string) returns (r: Option<Manifest>)
      modifies this`requests
      ensures r == AcceptManifest(api.composerAt(p.id, commit), p.path, conf.allowNameMismatch)
      ensures requests == old(requests) + 1
    {
      requests := requests + 1;
      r := AcceptManifest(api.composerAt(p.id, commit), p.path, conf.allowNameMismatch);
    }

    /** fetch_ref: the memoised package entry of one ref; a ref seen before makes no request. */
    method FetchRef(p: Project, ref: Ref) returns (r: Versions)
      requires Valid()
      modifies this`refCache, this`requests
      ensures Valid()
      ensures r == RefPackage(conf, p, ref, api.composerAt(p.id, ref.commit))
      ensures refCache == old(refCache)[(p, ref) := r]
      ensures requests == old(requests) + (if (p, ref) in old(refCache) then 0 else 1)
    {
      if (p, ref) !in refCache {
        var version := VersionLabel(ref.name);
        var data := FetchComposer(p, ref.commit);
        if data.Some? {
          var m := data.value["version" := JStr(version)]["source" := SourceOf(SourceUrl(p, conf.access), ref.commit)];
          refCache := refCache[(p, ref) := map[version := m]];
        } else {
          refCache := refCache[(p, ref) := map[]];
        }
      }
      r := refCache[(p, ref)];
    }

    /** $fetch_refs: the branches, then the tags, each ref's entries assigned in turn. */
    method FetchRefs(p: Project) returns (datas: Versions)
      requires Valid()
      modifies this`refCache, this`requests
      ensures Valid()
      ensures datas == ProjectVersions(conf, api, p)
    {
      datas := map[];
      requests := requests + 1;
      var branches := api.branches(p.id);
      if branches.None? {
        return;
      }
      requests := requests + 1;
      var tags := api.tags(p.id);
      if tags.None? {
        return;
      }
      datas := FetchAll(p, branches.value + tags.value);
    }

    /** The `foreach` of $fetch_refs over the merged ref list. */
    method FetchAll(p: Project, refs: seq<Ref>) returns (datas: Versions)
      requires Valid()
      modifies this`refCache, this`requests
      ensures Valid()
      ensures datas == FetchedRefs(conf, api, p, refs)
    {
      datas := map[];
      var i := 0;
      while i < |refs|
        invariant 0 <= i <= |refs| && Valid()
        invariant datas == FetchedRefs(conf, api, p, refs[..i])
      {
        var got := FetchRef(p, refs[i]);
        FetchedRefsNext(conf, api, p, refs, i);
        datas := datas + got;
        i := i + 1;
      }
      assert refs[..i] == refs;
    }

    /** The webhook registration of $load_data: list the project's hooks (a project
        missing from `hooks` makes the request throw), and add ours unless one has its URL. */
    method RegisterHook(id: int) returns (ok: bool)
      modifies this`hooks, this`requests, this`hooksAdded
      ensures ok == (id in old(hooks))
      ensures hooks == if ok then old(hooks)[id := Registered(old(hooks)[id], conf)] else old(hooks)
      ensures hooksAdded == old(hooksAdded) + (if ok && !HasHook(old(hooks)[id], conf.webhookUrl) then 1 else 0)
    {
      requests := requests + 1;
      if id !in hooks {
        return false;
      }
      var all := hooks[id];
      var found := FindHook(all, conf.webhookUrl);
      if !found {
        requests, hooksAdded := requests + 1, hooksAdded + 1;
        hooks := hooks[id := all + [NewHook(conf)]];
      }
      ok := true;
    }

    /** $load_data: a fresh cache file is returned without any request; otherwise the
        refs are fetched, the webhook registered when there is data, and the file
        rewritten with the project's activity time. */
    method LoadData(p: Project) returns (ok: bool, data: Versions)
      requires Valid()
      modifies this`refCache, this`requests, this`hooksAdded, this`cacheFiles, this`hooks
      ensures Valid()
      ensures var out := LoadOutcome(conf, api, old(hooks).Keys, old(cacheFiles), p);
        && ok == out.Some?
        && (ok ==> data == out.value.0 && cacheFiles == out.value.1)
        && (!ok ==> cacheFiles == old(cacheFiles))
      ensures IsFresh(old(cacheFiles), p) ==> requests == old(requests) && refCache == old(refCache)
      ensures hooks == HookTurn(conf, old(hooks), HookNeeded(conf, api, old(cacheFiles), p), p.id)
      ensures hooksAdded == old(hooksAdded) +
        (if HookNeeded(conf, api, old(cacheFiles), p) && p.id in old(hooks) && !HasHook(old(hooks)[p.id], conf.webhookUrl)
         then 1 else 0)
    {
      if IsFresh(cacheFiles, p) {
        return true, CachedValue(cacheFiles[p.path]);
      }
      var fetched := FetchRefs(p);
      if fetched != map[] && conf.createWebhook {
        var listed := RegisterHook(p.id);
        if !listed {
          return false, map[];
        }
      }
      cacheFiles := cacheFiles[p.path := CacheFile(Written(fetched), p.lastActivity)];
      ok, data := true, fetched;
    }

    /** $get_package_name. */
    method GetPackageName(p: Project) returns (ok: bool, name: Option<string>)
      requires Valid()
      modifies this`refCache, this`requests
      ensures Valid()
      ensures ok == PackageNameOf(conf, api, p).Some?
      ensures ok ==> name == PackageNameOf(conf, api, p).value
    {
      if !conf.allowNameMismatch {
        return true, if StrTruthy(p.path) then Some(p.path) else None;
      }
      requests := requests + 1;
      var b := api.branch(p.id, p.defaultBranch);
      if b.None? {
        return false, None;
      }
      var got := FetchRef(p, b.value);
      ok, name := true, DeclaredName(got, VersionLabel(b.value.name));
    }

    /** One iteration of build()'s project loop: load the project and, when it has
        data, register the data under its package name. */
    method CollectOne(p: Project, packages: map<string, Versions>) returns (ok: bool, next: map<string, Versions>)
      requires Valid()
      modifies this`refCache, this`requests, this`hooksAdded, this`cacheFiles, this`hooks
      ensures Valid()
      ensures hooks == HookTurn(conf, old(hooks), HookNeeded(conf, api, old(cacheFiles), p), p.id)
      ensures old(hooksAdded) <= hooksAdded <= old(hooksAdded) + 1
      ensures var r := Combine(packages, LoadOutcome(conf, api, old(hooks).Keys, old(cacheFiles), p),
                               PackageNameOf(conf, api, p));
        && ok == r.Some?
        && (ok ==> next == r.value.0 && cacheFiles == r.value.1)
    {
      next := packages;
      var loaded, package := LoadData(p);
      if !loaded {
        return false, next;
      }
      if package != map[] {
        var named, name := GetPackageName(p);
        if !named {
          return false, next;
        }
        if name.Some? {
          next := packages[name.value := package];
        }
      }
      ok := true;
    }

    /** build()'s loop over the listed projects. */
    method CollectPackages(ps: seq<Project>) returns (ok: bool, packages: map<string, Versions>)
      requires Valid()
      modifies this`refCache, this`requests, this`hooksAdded, this`cacheFiles, this`hooks
      ensures Valid()
      ensures hooks == AssembleHooks(conf, api, old(hooks), old(cacheFiles), ps)
      ensures old(hooksAdded) <= hooksAdded <= old(hooksAdded) + |ps|
      ensures var out := Assemble(conf, api, old(hooks).Keys, old(cacheFiles), ps);
        && ok == out.Some?
        && (ok ==> packages == out.value.0 && cacheFiles == out.value.1)
    {
      packages := map[];
      var i := 0;
      while i < |ps|
        invariant 0 <= i <= |ps| && Valid()
        invariant hooks == AssembleHooks(conf, api, old(hooks), old(cacheFiles), ps[..i])
        invariant hooks.Keys == old(hooks).Keys
        invariant old(hooksAdded) <= hooksAdded <= old(hooksAdded) + i
        invariant Assemble(conf, api, old(hooks).Keys, old(cacheFiles), ps[..i]) == Some((packages, cacheFiles))
      {
        AssembleNext(conf, api, old(hooks), old(cacheFiles), ps, i, packages, cacheFiles);
        var collected;
        collected, packages := CollectOne(ps[i], packages);
        if !collected {
          AssembleAborted(conf, api, old(hooks), old(cacheFiles), ps, i + 1);
          return false, packages;
        }
        i := i + 1;
      }
      assert ps[..i] == ps;
      ok := true;
    }

    /** build(): list the projects; when the index is missing or older than the
        latest activity, collect the packages, overlay the static file, and write the
        index with the time of writing. `ok` is false when an exception aborts it,
        which leaves the index as it was. */
    method Build(now: int) returns (ok: bool, ghost regenerated: bool)
      requires Valid()
      modifies this`refCache, this`requests, this`hooksAdded, this`cacheFiles, this`hooks, this`packagesFile
      ensures Valid()
      ensures regenerated == (old(packagesFile).None? || old(packagesFile).value.mtime < MaxActivity(Listed(conf, api)))
      ensures !regenerated ==>
        && ok && cacheFiles == old(cacheFiles) && packagesFile == old(packagesFile)
        && hooks == old(hooks) && refCache == old(refCache)
        && requests == old(requests) && hooksAdded == old(hooksAdded)
      ensures regenerated ==>
        var out := Assemble(conf, api, old(hooks).Keys, old(cacheFiles), Listed(conf, api));
        && hooks == AssembleHooks(conf, api, old(hooks), old(cacheFiles), Listed(conf, api))
        && old(hooksAdded) <= hooksAdded <= old(hooksAdded) + |Listed(conf, api)|
        && (ok <==> out.Some? && (staticFile.Some? ==> StaticsUsable(staticFile.value)))
        && (out.Some? ==> cacheFiles == out.value.1)
        && (ok ==> packagesFile == Some(IndexFile(IndexOf(out.value.0, staticFile), now)))
      ensures !ok ==> packagesFile == old(packagesFile)
    {
      var all, mtime := CollectProjects(conf, api);
      var stale := packagesFile.None? || packagesFile.value.mtime < mtime;
      regenerated := stale;
      if !stale {
        ok := true;
        return;
      }
      var collected, packages := CollectPackages(all);
      if !collected {
        return false, regenerated;
      }
      var merged := packages;
      if staticFile.Some? {
        var usable;
        usable, merged := MergeStatics(packages, staticFile.value);
        if !usable {
          return false, regenerated;
        }
      }
      packagesFile := Some(IndexFile(DropEmpty(merged), now));
      ok := true;
    }

    /** The first half of update(): fetch the pushed ref, upsert it into the
        project's cache file (written now), and delete the index. */
    method ApplyPush(event: PushEvent, now: int)
      requires Valid()
      modifies this`refCache, this`requests, this`cacheFiles, this`packagesFile
      ensures Valid()
      ensures cacheFiles == AfterPush(conf, api, old(cacheFiles), event, now)
      ensures packagesFile.None?
    {
      var p := WithRepoUrl(event.project, conf.access);
      var got := FetchRef(p, PushedRef(event));
      assert got == PushedPackage(conf, api, event);
      var path := event.project.path;
      cacheFiles := cacheFiles[path := CacheFile(Pushed(StoredBefore(cacheFiles, path), got), now)];
      packagesFile := None;
    }

    /** update(): apply the push, then rebuild. The index is always regenerated, from
        the cache files as the push left them; when the rebuild aborts the index stays
        deleted. */
    method Update(event: PushEvent, now: int) returns (ok: bool)
      requires Valid()
      modifies this`refCache, this`requests, this`hooksAdded, this`cacheFiles, this`hooks, this`packagesFile
      ensures Valid()
      ensures var files := AfterPush(conf, api, old(cacheFiles), event, now);
        && hooks == AssembleHooks(conf, api, old(hooks), files, Listed(conf, api))
        && old(hooksAdded) <= hooksAdded <= old(hooksAdded) + |Listed(conf, api)|
      ensures var out := Assemble(conf, api, old(hooks).Keys, AfterPush(conf, api, old(cacheFiles), event, now),
                                  Listed(conf, api));
        && (ok <==> out.Some? && (staticFile.Some? ==> StaticsUsable(staticFile.value)))
        && (out.Some? ==> cacheFiles == out.value.1)
        && (ok ==> packagesFile == Some(IndexFile(IndexOf(out.value.0, staticFile), now)))
        && (!ok ==> packagesFile.None?)
    {
      ApplyPush(event, now);
      ghost var regenerated;
      ok, regenerated := Build(now);
    }
  }
}
