/** Validation of a fetched composer.json (fetch_composer) and the package entry one
    ref contributes (the body of fetch_ref without its memo). */
module Manifests {
  import opened PhpValues
  import opened Gitlab
  import opened RefClassifier

  /** The manifest's `name` when it is a JSON string. */
  function NameOf(m: Manifest): Option<string> {
    if "name" in m && m["name"].JStr? then Some(m["name"].s) else None
  }

  /** The name test of fetch_composer: a non-empty name ("0" counts as empty) that
      strcasecmp() finds equal to the project path, unless mismatches are allowed. */
  predicate NameAccepted(m: Manifest, path: string, allowMismatch: bool) {
    NameOf(m).Some? && StrTruthy(NameOf(m).value)
    && (allowMismatch || SameIgnoringCase(NameOf(m).value, path))
  }

  /** fetch_composer: the decoded manifest, unchanged, or None (PHP `false`) when the
      API call fails, the reply has no content, or the name test fails. */
  function AcceptManifest(reply: FileReply, path: string, allowMismatch: bool): (r: Option<Manifest>)
    ensures r.Some? <==>
      reply.Content? && reply.decoded.Some? && "name" in reply.decoded.value
      && reply.decoded.value["name"].JStr?
      && reply.decoded.value["name"].s !in {"", "0"}
      && (allowMismatch || Lowered(reply.decoded.value["name"].s) == Lowered(path))
    ensures r.Some? ==> r.value == reply.decoded.value
  {
    match reply
    case Content(Some(m)) =>
      if NameAccepted(m, path, allowMismatch) then
        SameIgnoringCaseIff(m["name"].s, path);
        Some(m)
      else
        (if "name" in m && m["name"].JStr? then SameIgnoringCaseIff(m["name"].s, path); None else None)
    case _ => None
  }

  /** The clone URL published for a project: the "<method>_url_to_repo" field, or
      null when the project has no such field. */
  function SourceUrl(p: Project, access: AccessMethod): Json {
    var key := MethodName(access) + "_url_to_repo";
    if key in p.urls then JStr(p.urls[key]) else JNull
  }

  /** The `source` object injected into every dynamic package version. */
  function SourceOf(url: Json, commit: string): Json {
    JObject(map["url" := url, "type" := JStr("git"), "reference" := JStr(commit)])
  }

  /** fetch_ref without its memo: no entry, or the single entry version -> manifest
      with `version` and `source` overwritten. */
  function RefPackage(conf: Config, p: Project, ref: Ref, reply: FileReply): Versions
  {
    match AcceptManifest(reply, p.path, conf.allowNameMismatch)
    case None => map[]
    case Some(m) =>
      var version := VersionLabel(ref.name);
      map[version := m["version" := JStr(version)]["source" := SourceOf(SourceUrl(p, conf.access), ref.commit)]]
  }

  /** A ref contributes nothing exactly when its manifest is refused; otherwise one
      entry under the ref's version label: the manifest with `version` set to that
      label and `source` pointing at the clone URL and the ref's commit. */
  lemma RefPackageSpec(conf: Config, p: Project, ref: Ref, reply: FileReply)
    ensures RefPackage(conf, p, ref, reply) == map[] <==> AcceptManifest(reply, p.path, conf.allowNameMismatch).None?
    ensures RefPackage(conf, p, ref, reply) != map[] ==> (
      var version := VersionLabel(ref.name);
      var r := RefPackage(conf, p, ref, reply);
      var m := AcceptManifest(reply, p.path, conf.allowNameMismatch).value;
      && r.Keys == {version}
      && r[version].Keys == m.Keys + {"version", "source"}
      && r[version]["version"] == JStr(version)
      && r[version]["source"].JObject?
      && r[version]["source"].fields.Keys == {"url", "type", "reference"}
      && r[version]["source"].fields["type"] == JStr("git")
      && r[version]["source"].fields["reference"] == JStr(ref.commit)
      && r[version]["source"].fields["url"] == SourceUrl(p, conf.access)
      && (forall k | k in m && k != "version" && k != "source" :: r[version][k] == m[k]))
  {
    var version := VersionLabel(ref.name);
    if AcceptManifest(reply, p.path, conf.allowNameMismatch).Some? {
      assert version in RefPackage(conf, p, ref, reply);
    }
  }

  /** The name a package entry of RefPackage declares: the validated manifest name. */
  lemma RefPackageName(conf: Config, p: Project, ref: Ref, reply: FileReply)
    requires RefPackage(conf, p, ref, reply) != map[]
    ensures var m := RefPackage(conf, p, ref, reply)[VersionLabel(ref.name)];
      && NameOf(m).Some? && StrTruthy(NameOf(m).value)
      && (conf.allowNameMismatch || SameIgnoringCase(NameOf(m).value, p.path))
  {
    RefPackageSpec(conf, p, ref, reply);
    var m := AcceptManifest(reply, p.path, conf.allowNameMismatch).value;
    SameIgnoringCaseIff(m["name"].s, p.path);
  }

  /** A manifest whose name differs from the project path only in letter case is accepted. */
  lemma CaseInsensitiveMatch()
    ensures AcceptManifest(Content(Some(map["name" := JStr("Foo/Bar")])), "foo/bar", false).Some?
  {
    var m: Manifest := map["name" := JStr("Foo/Bar")];
    assert Lowered("Foo/Bar") == Lowered("foo/bar");
  }

  /** A manifest named foo/bar is accepted on project foo/bar; on project foo/baz it is
      rejected unless mismatches are allowed. */
  lemma NameMismatchExamples()
    ensures AcceptManifest(Content(Some(map["name" := JStr("foo/bar")])), "foo/bar", false).Some?
    ensures AcceptManifest(Content(Some(map["name" := JStr("foo/bar")])), "foo/baz", false).None?
    ensures AcceptManifest(Content(Some(map["name" := JStr("foo/bar")])), "foo/baz", true).Some?
  {
    assert Lowered("foo/bar")[6] != Lowered("foo/baz")[6];
  }

  /** The manifest names PHP's empty() treats as missing are rejected, whatever the configuration. */
  lemma EmptyNamesRejected(path: string, allow: bool)
    ensures AcceptManifest(Content(Some(map["name" := JStr("")])), path, allow).None?
    ensures AcceptManifest(Content(Some(map["name" := JStr("0")])), path, allow).None?
    ensures AcceptManifest(Content(Some(map[])), path, allow).None?
  {
  }
}
