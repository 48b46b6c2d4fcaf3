/** The static packages of confs/static-repos.json and the final assembly of the
    index: every static version is tagged with a provenance marker in `extra`, the
    static packages replace the dynamic ones of the same name, and array_filter()
    drops the empty packages. */
module StaticOverrides {
  import opened PhpValues

  /** k underscores. */
  function Underscores(k: nat): (r: string)
    ensures |r| == k && forall i | 0 <= i < k :: r[i] == '_'
  {
    if k == 0 then "" else "_" + Underscores(k - 1)
  }

  /** The k-th candidate key for the marker: "_source", "__source", "___source", ... */
  function SourceKey(k: nat): string {
    Underscores(k) + "source"
  }

  /** Different underscore counts give different keys. */
  lemma SourceKeyInjective(j: nat, k: nat)
    ensures SourceKey(j) == SourceKey(k) ==> j == k
  {
    assert |SourceKey(j)| == j + 6 && |SourceKey(k)| == k + 6;
  }

  /** PHP isset() on an object property: present and not null. */
  predicate IsSet(fields: map<string, Json>, key: string) {
    key in fields && fields[key] != JNull
  }

  /** An upper bound on the length of the keys of a map. */
  ghost function LongestKey(keys: set<string>): (n: nat)
    ensures forall k | k in keys :: |k| <= n
  {
    if keys == {} then 0
    else
      var k :| k in keys;
      var rest := LongestKey(keys - {k});
      if |k| < rest then rest else |k|
  }

  /** The first k >= `from` whose candidate key is not set. */
  function FreeSlotFrom(fields: map<string, Json>, from: nat): (slot: nat)
    requires from >= 1
    ensures slot >= from && !IsSet(fields, SourceKey(slot))
    ensures forall j | from <= j < slot :: IsSet(fields, SourceKey(j))
    decreases LongestKey(fields.Keys) + 1 - from
  {
    if !IsSet(fields, SourceKey(from)) then from
    else
      assert |SourceKey(from)| == from + 6 <= LongestKey(fields.Keys);
      FreeSlotFrom(fields, from + 1)
  }

  /** The number of underscores of the marker key: the least k >= 1 such that
      '_'^k . 'source' is not set in `extra`. */
  function FreeSlot(fields: map<string, Json>): (k: nat)
    ensures k >= 1 && !IsSet(fields, SourceKey(k))
    ensures forall j | 1 <= j < k :: IsSet(fields, SourceKey(j))
  {
    FreeSlotFrom(fields, 1)
  }

  /** The `while (isset($root->extra->{$source})) $source = '_' . $source;` loop. */
  method FreeSourceKey(extra: map<string, Json>) returns (key: string)
    ensures key == SourceKey(FreeSlot(extra))
  {
    key := "_source";
    ghost var k: nat := 1;
    assert SourceKey(1) == "_source";
    while IsSet(extra, key)
      invariant 1 <= k <= FreeSlot(extra) && key == SourceKey(k)
      decreases FreeSlot(extra) - k
    {
      assert SourceKey(k + 1) == "_" + SourceKey(k);
      key := "_" + key;
      k := k + 1;
    }
  }

  /** The fields of a version's `extra` when it is set, and none otherwise. */
  function ExtraFields(root: Manifest): map<string, Json> {
    if IsSet(root, "extra") && root["extra"].JObject? then root["extra"].fields else map[]
  }

  /** Whether a static version can be tagged: PHP 8 throws an Error, which stops the
      build, when `extra` is set but is not an object. */
  predicate Taggable(root: Manifest) {
    !IsSet(root, "extra") || root["extra"].JObject?
  }

  /** A static version with its provenance marker. */
  function Tagged(root: Manifest): Manifest
    requires Taggable(root)
  {
    if IsSet(root, "extra") then
      var fields := root["extra"].fields;
      root["extra" := JObject(fields[SourceKey(FreeSlot(fields)) := JStr("static")])]
    else
      root["extra" := JObject(map["_source" := JStr("static")])]
  }

  /** What tagging does to a version: it sets the first free marker key of `extra`
      (creating `extra` if needed) to "static" and changes nothing else. */
  lemma TaggedMarks(root: Manifest)
    requires Taggable(root)
    ensures var r := Tagged(root);
      var before := ExtraFields(root);
      var key := SourceKey(FreeSlot(before));
      && r.Keys == root.Keys + {"extra"}
      && (forall k | k in root && k != "extra" :: r[k] == root[k])
      && r["extra"].JObject?
      && r["extra"].fields.Keys == before.Keys + {key}
      && r["extra"].fields[key] == JStr("static")
      && (forall k | k in before && k != key :: r["extra"].fields[k] == before[k])
  {
    if !IsSet(root, "extra") {
      assert FreeSlot(map[]) == 1;
      assert SourceKey(1) == "_source";
    }
  }

  /** The body of `foreach ($package as $version => $root)` for one version. */
  method TagManifest(root: Manifest) returns (ok: bool, tagged: Manifest)
    ensures ok == Taggable(root)
    ensures ok ==> tagged == Tagged(root)
  {
    tagged := root;
    if IsSet(root, "extra") {
      match root["extra"]
      case JObject(fields) =>
        var source := FreeSourceKey(fields);
        tagged := root["extra" := JObject(fields[source := JStr("static")])];
        ok := true;
      case _ =>
        ok := false;
    } else {
      tagged := root["extra" := JObject(map["_source" := JStr("static")])];
      ok := true;
    }
  }

  predicate AllTaggable(package: Versions) {
    forall v | v in package :: Taggable(package[v])
  }

  /** A static package with every version tagged. */
  function TaggedPackage(package: Versions): (r: Versions)
    requires AllTaggable(package)
    ensures r.Keys == package.Keys
  {
    map v | v in package :: Tagged(package[v])
  }

  /** `tagged` is `package` with every version outside `todo` tagged. */
  ghost predicate TaggedExcept(package: Versions, todo: set<string>, tagged: Versions) {
    && todo <= package.Keys && tagged.Keys == package.Keys
    && (forall v | v in package && v !in todo :: Taggable(package[v]) && tagged[v] == Tagged(package[v]))
  }

  lemma TaggedExceptStep(package: Versions, todo: set<string>, tagged: Versions, v: string, root: Manifest)
    requires TaggedExcept(package, todo, tagged)
    requires v in todo && Taggable(package[v]) && root == Tagged(package[v])
    ensures TaggedExcept(package, todo - {v}, tagged[v := root])
  {
  }

  lemma TaggedAll(package: Versions, tagged: Versions)
    requires TaggedExcept(package, {}, tagged)
    ensures AllTaggable(package) && tagged == TaggedPackage(package)
  {
  }

  /** The loop over the versions of one static package. */
  method TagPackage(package: Versions) returns (ok: bool, tagged: Versions)
    ensures ok == AllTaggable(package)
    ensures ok ==> tagged == TaggedPackage(package)
  {
    tagged := package;
    var todo := package.Keys;
    while todo != {}
      invariant TaggedExcept(package, todo, tagged)
      decreases |todo|
    {
      var v :| v in todo;
      var good, root := TagManifest(package[v]);
      if !good {
        return false, tagged;
      }
      TaggedExceptStep(package, todo, tagged, v, root);
      tagged := tagged[v := root];
      todo := todo - {v};
    }
    ok := true;
    TaggedAll(package, tagged);
  }

  predicate StaticsUsable(statics: map<string, Versions>) {
    forall n | n in statics :: AllTaggable(statics[n])
  }

  /** The dynamic packages with every static package, tagged, put in place of the
      entry of the same name. */
  function Overlay(packages: map<string, Versions>, statics: map<string, Versions>): map<string, Versions>
    requires StaticsUsable(statics)
  {
    packages + map n | n in statics :: TaggedPackage(statics[n])
  }

  /** The overlay is the one map whose keys are the dynamic and the static names,
      that holds every static package tagged, and every other dynamic package as it was. */
  lemma OverlayByEntries(packages: map<string, Versions>, statics: map<string, Versions>, merged: map<string, Versions>)
    requires StaticsUsable(statics)
    ensures merged == Overlay(packages, statics) <==>
      && merged.Keys == packages.Keys + statics.Keys
      && (forall n | n in statics :: merged[n] == TaggedPackage(statics[n]))
      && (forall n | n in packages && n !in statics :: merged[n] == packages[n])
  {
    var tagged := map n | n in statics :: TaggedPackage(statics[n]);
    var overlay := packages + tagged;
    assert overlay.Keys == packages.Keys + statics.Keys;
    assert forall n | n in statics :: overlay[n] == TaggedPackage(statics[n]);
    assert forall n | n in packages && n !in statics :: overlay[n] == packages[n];
  }

  /** `merged` is the overlay of every static package except those in `todo`. */
  ghost predicate MergedExcept(packages: map<string, Versions>, statics: map<string, Versions>,
                               todo: set<string>, merged: map<string, Versions>)
  {
    && (forall n | n in statics && n !in todo ::
          AllTaggable(statics[n]) && n in merged && merged[n] == TaggedPackage(statics[n]))
    && (forall n | n in merged :: n in packages || (n in statics && n !in todo))
    && (forall n | n in packages && (n !in statics || n in todo) :: n in merged && merged[n] == packages[n])
  }

  lemma MergedExceptStep(packages: map<string, Versions>, statics: map<string, Versions>,
                         todo: set<string>, merged: map<string, Versions>, n: string, tagged: Versions)
    requires MergedExcept(packages, statics, todo, merged)
    requires n in todo && n in statics && AllTaggable(statics[n]) && tagged == TaggedPackage(statics[n])
    ensures MergedExcept(packages, statics, todo - {n}, merged[n := tagged])
  {
  }

  lemma MergedAll(packages: map<string, Versions>, statics: map<string, Versions>, merged: map<string, Versions>)
    requires MergedExcept(packages, statics, {}, merged)
    ensures StaticsUsable(statics) && merged == Overlay(packages, statics)
  {
    OverlayByEntries(packages, statics, merged);
  }

  /** The loop over the static packages: `$packages[$name] = $package`. */
  method MergeStatics(packages: map<string, Versions>, statics: map<string, Versions>)
    returns (ok: bool, merged: map<string, Versions>)
    ensures ok == StaticsUsable(statics)
    ensures ok ==> merged == Overlay(packages, statics)
  {
    merged := packages;
    var todo := statics.Keys;
    while todo != {}
      invariant todo <= statics.Keys
      invariant MergedExcept(packages, statics, todo, merged)
      decreases |todo|
    {
      var n :| n in todo;
      var good, tagged := TagPackage(statics[n]);
      if !good {
        return false, merged;
      }
      MergedExceptStep(packages, statics, todo, merged, n, tagged);
      merged := merged[n := tagged];
      todo := todo - {n};
    }
    ok := true;
    MergedAll(packages, statics, merged);
  }

  /** array_filter(): the packages whose version map is not empty. */
  function DropEmpty(packages: map<string, Versions>): (r: map<string, Versions>)
    ensures forall n :: n in r <==> n in packages && packages[n] != map[]
    ensures forall n | n in r :: r[n] == packages[n]
  {
    map n | n in packages && packages[n] != map[] :: packages[n]
  }

  /** The `packages` object of the index: the dynamic packages, overlaid with the
      static file when it exists, without empty entries. */
  function IndexOf(dynamic: map<string, Versions>, statics: Option<map<string, Versions>>): map<string, Versions>
    requires statics.Some? ==> StaticsUsable(statics.value)
  {
    DropEmpty(if statics.None? then dynamic else Overlay(dynamic, statics.value))
  }

  /** A static package replaces the dynamic one of the same name, wholesale, and each
      of its versions carries the marker. */
  lemma StaticPrecedence(dynamic: map<string, Versions>, statics: map<string, Versions>, n: string)
    requires StaticsUsable(statics)
    requires n in statics && statics[n] != map[]
    ensures n in IndexOf(dynamic, Some(statics))
    ensures IndexOf(dynamic, Some(statics))[n].Keys == statics[n].Keys
    ensures forall v | v in statics[n] :: IndexOf(dynamic, Some(statics))[n][v] == Tagged(statics[n][v])
  {
    var tagged := TaggedPackage(statics[n]);
    var v :| v in statics[n];
    assert v in tagged;
  }

  /** Every entry of the index is a non-empty package that comes from the dynamic
      packages or from the static file, and a dynamic package that no static package
      replaces is published unchanged exactly when it is not empty. */
  lemma IndexEntries(dynamic: map<string, Versions>, statics: Option<map<string, Versions>>, n: string)
    requires statics.Some? ==> StaticsUsable(statics.value)
    ensures n in IndexOf(dynamic, statics) ==>
      IndexOf(dynamic, statics)[n] != map[] && (n in dynamic || (statics.Some? && n in statics.value))
    ensures n in dynamic && (statics.None? || n !in statics.value) ==>
      (n in IndexOf(dynamic, statics) <==> dynamic[n] != map[])
      && (dynamic[n] != map[] ==> IndexOf(dynamic, statics)[n] == dynamic[n])
  {
  }

  /** A version whose `extra` already has `_source` gets its marker under `__source`. */
  lemma SecondMarkerExample()
    ensures Tagged(map["extra" := JObject(map["_source" := JStr("vcs")])]) ==
      map["extra" := JObject(map["_source" := JStr("vcs"), "__source" := JStr("static")])]
  {
    var before := map["_source" := JStr("vcs")];
    assert SourceKey(1) == "_source";
    assert SourceKey(2) == "__source";
    assert IsSet(before, SourceKey(1));
    assert !IsSet(before, SourceKey(2));
    assert FreeSlot(before) == 2;
  }

  /** A version without `extra` gets `{"_source": "static"}`. */
  lemma FirstMarkerExample()
    ensures Tagged(map["name" := JStr("a/b")]) ==
      map["name" := JStr("a/b"), "extra" := JObject(map["_source" := JStr("static")])]
  {
    assert FreeSlot(map[]) == 1;
  }
}
