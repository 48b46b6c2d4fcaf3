/** The ref name of a push event. GitLab sends the fully qualified ref
    ("refs/heads/<branch>" or "refs/tags/<tag>"); update() turns it into the branch or
    tag name with two str_replace() calls, which remove the two prefixes wherever they
    occur in the name, not only at its start. */
module WebhookRefs {
  import opened PhpValues
  import opened RefClassifier

  const TagsPrefix: string := "refs/tags/"
  const HeadsPrefix: string := "refs/heads/"

  /** Whether `needle` occurs in `s`. */
  predicate Occurs(s: string, needle: string)
    decreases |s|
  {
    |s| >= |needle| && (s[..|needle|] == needle || Occurs(s[1..], needle))
  }

  /** str_replace(needle, '', s): a single left-to-right pass that deletes every
      non-overlapping occurrence of `needle`. */
  function RemoveAll(s: string, needle: string): (r: string)
    requires needle != []
    ensures |r| <= |s|
    decreases |s|
  {
    if |s| < |needle| then s
    else if s[..|needle|] == needle then RemoveAll(s[|needle|..], needle)
    else [s[0]] + RemoveAll(s[1..], needle)
  }

  /** A string in which the needle does not occur is left as it is. */
  lemma {:induction false} RemoveAllAbsent(s: string, needle: string)
    requires needle != [] && !Occurs(s, needle)
    ensures RemoveAll(s, needle) == s
    decreases |s|
  {
    if |s| >= |needle| {
      RemoveAllAbsent(s[1..], needle);
      assert [s[0]] + s[1..] == s;
    }
  }

  /** A position where the text differs from the needle: no match starts here. */
  lemma RemoveAllMismatch(t: string, needle: string, k: nat)
    requires needle != [] && k < |needle| <= |t| && t[k] != needle[k]
    ensures RemoveAll(t, needle) == [t[0]] + RemoveAll(t[1..], needle)
  {
    assert t[..|needle|][k] != needle[k];
  }

  /** Characters that cannot start the needle pass through unchanged. */
  lemma {:induction false} RemoveAllShielded(p: string, s: string, needle: string)
    requires needle != []
    requires forall i | 0 <= i < |p| :: p[i] != needle[0]
    ensures RemoveAll(p + s, needle) == p + RemoveAll(s, needle)
    decreases |p|
  {
    if p != [] {
      var t := p + s;
      assert t[1..] == p[1..] + s;
      RemoveAllShielded(p[1..], s, needle);
      if |t| < |needle| {
        assert RemoveAll(s, needle) == s;
        assert RemoveAll(t, needle) == t;
      } else {
        RemoveAllMismatch(t, needle, 0);
        assert [p[0]] + (p[1..] + RemoveAll(s, needle)) == p + RemoveAll(s, needle);
      }
    } else {
      assert p + s == s;
    }
  }

  /** A prefix that does not match the needle at its start, and in which the needle's
      first character occurs only at the start, passes through unchanged. */
  lemma RemoveAllGuarded(q: string, s: string, needle: string, k: nat)
    requires needle != [] && k < |needle| <= |q| && q[k] != needle[k]
    requires forall i | 1 <= i < |q| :: q[i] != needle[0]
    ensures RemoveAll(q + s, needle) == q + RemoveAll(s, needle)
  {
    var t := q + s;
    var rest := q[1..];
    RemoveAllMismatch(t, needle, k);
    assert t[1..] == rest + s;
    assert forall i | 0 <= i < |rest| :: rest[i] == q[i + 1];
    RemoveAllShielded(rest, s, needle);
    calc {
      RemoveAll(t, needle);
      [q[0]] + RemoveAll(rest + s, needle);
      [q[0]] + (rest + RemoveAll(s, needle));
      { assert [q[0]] + rest == q; }
      q + RemoveAll(s, needle);
    }
  }

  /** update() as written: remove "refs/tags/", then "refs/heads/", everywhere. */
  function StripRefAsWritten(ref: string): string {
    RemoveAll(RemoveAll(ref, TagsPrefix), HeadsPrefix)
  }

  /** What the two calls are for: drop the qualifying prefix of the ref, and nothing else. */
  function StripRefPrefix(ref: string): string {
    if TagsPrefix <= ref then ref[|TagsPrefix|..]
    else if HeadsPrefix <= ref then ref[|HeadsPrefix|..]
    else ref
  }

  /** StripRefPrefix undoes GitLab's qualification of branch and tag names. */
  lemma StripRefPrefixInverse(name: string)
    ensures StripRefPrefix(HeadsPrefix + name) == name
    ensures StripRefPrefix(TagsPrefix + name) == name
  {
    assert (HeadsPrefix + name)[5] != TagsPrefix[5];
    assert (HeadsPrefix + name)[..|HeadsPrefix|] == HeadsPrefix;
    assert (TagsPrefix + name)[..|TagsPrefix|] == TagsPrefix;
  }

  /** "refs/heads/" + s with "refs/tags/" removed: the heads prefix shields itself. */
  lemma RemoveTagsAfterHeads(s: string)
    ensures RemoveAll(HeadsPrefix + s, TagsPrefix) == HeadsPrefix + RemoveAll(s, TagsPrefix)
  {
    RemoveAllGuarded(HeadsPrefix, s, TagsPrefix, 5);
  }

  /** For branch and tag names that do not themselves contain "refs/tags/" or
      "refs/heads/", the code as written and the prefix strip agree. */
  lemma {:induction false} AsWrittenAgreesOnPlainNames(name: string)
    requires !Occurs(name, TagsPrefix) && !Occurs(name, HeadsPrefix)
    ensures StripRefAsWritten(HeadsPrefix + name) == name == StripRefPrefix(HeadsPrefix + name)
    ensures StripRefAsWritten(TagsPrefix + name) == name == StripRefPrefix(TagsPrefix + name)
  {
    StripRefPrefixInverse(name);
    RemoveAllAbsent(name, TagsPrefix);
    RemoveAllAbsent(name, HeadsPrefix);
    RemoveTagsAfterHeads(name);
    assert (HeadsPrefix + name)[..|HeadsPrefix|] == HeadsPrefix;
    assert (HeadsPrefix + name)[|HeadsPrefix|..] == name;
    assert (TagsPrefix + name)[..|TagsPrefix|] == TagsPrefix;
    assert (TagsPrefix + name)[|TagsPrefix|..] == name;
  }

  /** The two ways of reading "refs/heads/refs/tags/v1.0". */
  lemma StripBranchNamedLikeTag()
    ensures StripRefAsWritten(HeadsPrefix + TagsPrefix + "v1.0") == "v1.0"
    ensures StripRefPrefix(HeadsPrefix + TagsPrefix + "v1.0") == "refs/tags/v1.0"
  {
    var tail := TagsPrefix + "v1.0";
    assert HeadsPrefix + TagsPrefix + "v1.0" == HeadsPrefix + tail;
    RemoveTagsAfterHeads(tail);
    assert tail[..|TagsPrefix|] == TagsPrefix && tail[|TagsPrefix|..] == "v1.0";
    assert RemoveAll("v1.0", TagsPrefix) == "v1.0";
    var u := HeadsPrefix + "v1.0";
    assert u[..|HeadsPrefix|] == HeadsPrefix && u[|HeadsPrefix|..] == "v1.0";
    assert RemoveAll("v1.0", HeadsPrefix) == "v1.0";
    StripRefPrefixInverse(tail);
  }

  /** "v1.0" is a release version. */
  lemma ReleaseLabel()
    ensures VersionLabel("v1.0") == "v1.0"
  {
    var t := VersionTag(true, ["1", "0"], None);
    assert JoinDots(["1", "0"]) == "1.0" by {
      assert ["1", "0"][1..] == ["0"];
    }
    assert Render(t) == "v1.0";
    MatchFromRendered("v1.0", t);
  }

  /** "refs/tags/v1.0" is a branch name. */
  lemma QualifiedNameLabel()
    ensures VersionLabel("refs/tags/v1.0") == "dev-refs/tags/v1.0"
  {
    MatchStartsWithVOrDigit("refs/tags/v1.0");
  }

  /** A push to the branch "refs/tags/v1.0" arrives as "refs/heads/refs/tags/v1.0".
      As written, update() reads it as "v1.0" and publishes the branch under the release
      version v1.0; stripping only the prefix gives the branch name and its dev- version. */
  lemma BranchNamedLikeTagBecomesRelease()
    ensures VersionLabel(StripRefAsWritten(HeadsPrefix + TagsPrefix + "v1.0")) == "v1.0"
    ensures VersionLabel(StripRefPrefix(HeadsPrefix + TagsPrefix + "v1.0")) == "dev-refs/tags/v1.0"
  {
    StripBranchNamedLikeTag();
    ReleaseLabel();
    QualifiedNameLabel();
  }
}
