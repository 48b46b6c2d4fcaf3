/** How fetch_ref turns a ref name into a version label.

    A name matching ^v?\d+\.\d+(\.\d+)*(-(dev|patch|alpha|beta|RC)\d*)?$ is its
    own label; any other name gets the label "dev-" + name. The pattern is
    recognised here by a hand-written greedy reader (ParseVersion), and the
    language it accepts is described independently by the grammar of
    VersionTag values and their rendering (Render). PCRE's `$` without the D
    modifier also matches just before a final "\n", so a name that is a
    rendered tag followed by one newline matches too. */
module RefClassifier {
  import opened PhpValues

  predicate IsDigit(c: char) {
    '0' <= c <= '9'
  }

  predicate AllDigits(s: string) {
    forall i | 0 <= i < |s| :: IsDigit(s[i])
  }

  /** The length of the run of digits at the start of s: what a greedy \d* consumes. */
  function DigitRun(s: string): (n: nat)
    ensures n <= |s| && AllDigits(s[..n])
    ensures n < |s| ==> !IsDigit(s[n])
  {
    if s != [] && IsDigit(s[0]) then
      var m := DigitRun(s[1..]);
      assert s[..1 + m] == [s[0]] + s[1..][..m];
      1 + m
    else
      0
  }

  lemma {:induction false} DigitRunOfDigits(d: string, rest: string)
    requires AllDigits(d)
    requires rest == [] || !IsDigit(rest[0])
    ensures DigitRun(d + rest) == |d|
  {
    if d != [] {
      assert (d + rest)[0] == d[0];
      assert (d + rest)[1..] == d[1..] + rest;
      DigitRunOfDigits(d[1..], rest);
    } else {
      assert d + rest == rest;
    }
  }

  /** The pre-release stages the pattern admits after a "-". */
  datatype Stage = Dev | Patch | Alpha | Beta | RC

  function StageName(st: Stage): string {
    match st
    case Dev => "dev"
    case Patch => "patch"
    case Alpha => "alpha"
    case Beta => "beta"
    case RC => "RC"
  }

  datatype Suffix = Suffix(stage: Stage, number: string)

  /** A name the pattern accepts, taken apart: an optional leading "v", at
      least two dot-separated numbers and an optional stage suffix. */
  datatype VersionTag = VersionTag(leadingV: bool, numbers: seq<string>, suffix: Option<Suffix>)

  predicate WellFormed(t: VersionTag) {
    && |t.numbers| >= 2
    && AllNumbers(t.numbers)
    && (t.suffix.Some? ==> AllDigits(t.suffix.value.number))
  }

  function JoinDots(ns: seq<string>): string
    requires ns != []
  {
    if |ns| == 1 then ns[0] else ns[0] + "." + JoinDots(ns[1..])
  }

  function SuffixText(sx: Option<Suffix>): string {
    match sx
    case None => ""
    case Some(x) => "-" + StageName(x.stage) + x.number
  }

  function Render(t: VersionTag): string
    requires t.numbers != []
  {
    (if t.leadingV then "v" else "") + JoinDots(t.numbers) + SuffixText(t.suffix)
  }

  /** Every entry is a non-empty run of digits. */
  predicate AllNumbers(ns: seq<string>) {
    forall i | 0 <= i < |ns| :: ns[i] != [] && AllDigits(ns[i])
  }

  /** Greedy match of \d+(\.\d+)* at the start of s: the numbers read and what follows. */
  function ReadNumbers(s: string): (r: (seq<string>, string))
    ensures r.0 == [] <==> DigitRun(s) == 0
    ensures r.0 == [] ==> r.1 == s
    ensures r.0 != [] ==> JoinDots(r.0) + r.1 == s
    ensures AllNumbers(r.0)
    decreases |s|
  {
    var n := DigitRun(s);
    if n == 0 then ([], s)
    else
      var rest := s[n..];
      if rest != [] && rest[0] == '.' && DigitRun(rest[1..]) > 0 then
        var more := ReadNumbers(rest[1..]);
        ReadNumbersStep(s, n, more.0, more.1);
        ([s[..n]] + more.0, more.1)
      else
        assert s[..n] + rest == s;
        ([s[..n]], rest)
  }

  lemma ReadNumbersStep(s: string, n: nat, more: seq<string>, tail: string)
    requires 0 < n <= |s| && AllDigits(s[..n])
    requires n < |s| && s[n] == '.'
    requires more != [] && AllNumbers(more) && JoinDots(more) + tail == s[n + 1..]
    ensures JoinDots([s[..n]] + more) + tail == s
    ensures AllNumbers([s[..n]] + more)
  {
    JoinDotsCons(s[..n], more);
    assert s == s[..n] + "." + s[n + 1..];
    var ns := [s[..n]] + more;
    forall i | 0 <= i < |ns| ensures ns[i] != [] && AllDigits(ns[i]) {
      if i > 0 { assert ns[i] == more[i - 1]; }
    }
  }

  lemma JoinDotsCons(n: string, ns: seq<string>)
    requires ns != []
    ensures JoinDots([n] + ns) == n + "." + JoinDots(ns)
  {
    assert ([n] + ns)[1..] == ns;
  }

  /** The stage whose name starts s; no stage name is a prefix of another. */
  function StageAt(s: string): Option<Stage> {
    if "dev" <= s then Some(Dev)
    else if "patch" <= s then Some(Patch)
    else if "alpha" <= s then Some(Alpha)
    else if "beta" <= s then Some(Beta)
    else if "RC" <= s then Some(RC)
    else None
  }

  /** Match of (-(dev|patch|alpha|beta|RC)\d*)? against all of s: None when it fails. */
  function ReadSuffix(s: string): (r: Option<Option<Suffix>>)
    ensures r.Some? ==> SuffixText(r.value) == s
    ensures r.Some? && r.value.Some? ==> AllDigits(r.value.value.number)
  {
    if s == [] then Some(None)
    else if s[0] != '-' then None
    else
      match StageAt(s[1..])
      case None => None
      case Some(st) =>
        var digits := s[1 + |StageName(st)|..];
        if AllDigits(digits) then
          assert s == "-" + StageName(st) + digits;
          Some(Some(Suffix(st, digits)))
        else None
  }

  /** The whole pattern, anchored at both ends (the final-newline case is in MatchesVersionPattern). */
  function ParseVersion(s: string): (r: Option<VersionTag>)
    ensures r.Some? ==> WellFormed(r.value) && Render(r.value) == s
  {
    var v := s != [] && s[0] == 'v';
    var body := if v then s[1..] else s;
    var read := ReadNumbers(body);
    if |read.0| < 2 then None
    else
      var sx := ReadSuffix(read.1);
      if sx.None? then None
      else
        RenderOfParts(v, read.0, sx.value, read.1, body, s);
        Some(VersionTag(v, read.0, sx.value))
  }

  lemma RenderOfParts(v: bool, ns: seq<string>, sx: Option<Suffix>, rest: string, body: string, s: string)
    requires ns != [] && JoinDots(ns) + rest == body && SuffixText(sx) == rest
    requires s == (if v then "v" else "") + body
    ensures Render(VersionTag(v, ns, sx)) == s
  {
  }

  /** Reading a single number followed by something that does not continue the list. */
  lemma ReadNumbersLast(d: string, rest: string)
    requires d != [] && AllDigits(d)
    requires rest == [] || (!IsDigit(rest[0]) && !(rest[0] == '.' && DigitRun(rest[1..]) > 0))
    ensures ReadNumbers(d + rest) == ([d], rest)
  {
    DigitRunOfDigits(d, rest);
    assert (d + rest)[|d|..] == rest;
    assert (d + rest)[..|d|] == d;
  }

  /** Reading a number, a dot and more numbers. */
  lemma ReadNumbersMore(d: string, tail: string)
    requires d != [] && AllDigits(d)
    requires DigitRun(tail) > 0
    ensures ReadNumbers(d + "." + tail) == ([d] + ReadNumbers(tail).0, ReadNumbers(tail).1)
  {
    var s := d + "." + tail;
    assert s == d + ("." + tail);
    DigitRunOfDigits(d, "." + tail);
    assert s[|d|..] == "." + tail;
    assert s[|d|..][1..] == tail;
    assert s[..|d|] == d;
  }

  lemma {:induction false} ReadNumbersOfJoin(ns: seq<string>, rest: string)
    requires ns != []
    requires AllNumbers(ns)
    requires rest == [] || rest[0] == '-'
    ensures ReadNumbers(JoinDots(ns) + rest) == (ns, rest)
  {
    if |ns| == 1 {
      ReadNumbersLast(ns[0], rest);
      assert ns == [ns[0]];
    } else {
      var tail := JoinDots(ns[1..]) + rest;
      assert JoinDots(ns) + rest == ns[0] + "." + tail;
      JoinDotsStart(ns[1..]);
      assert tail[0] == ns[1][0];
      assert DigitRun(tail) > 0;
      ReadNumbersMore(ns[0], tail);
      ReadNumbersOfJoin(ns[1..], rest);
      assert [ns[0]] + ns[1..] == ns;
    }
  }

  lemma JoinDotsStart(ns: seq<string>)
    requires ns != [] && ns[0] != []
    ensures JoinDots(ns) != [] && JoinDots(ns)[0] == ns[0][0]
  {
  }

  lemma StageAtName(st: Stage, digits: string)
    ensures StageAt(StageName(st) + digits) == Some(st)
  {
    var s := StageName(st) + digits;
    assert s[0] == StageName(st)[0];
    if st != Dev { assert !("dev" <= s) by { assert "dev"[0] != s[0]; } }
    if st != Patch && st != Dev { assert !("patch" <= s) by { assert "patch"[0] != s[0]; } }
    if st != Alpha && st != Patch && st != Dev { assert !("alpha" <= s) by { assert "alpha"[0] != s[0]; } }
    if st == RC { assert !("beta" <= s) by { assert "beta"[0] != s[0]; } }
  }

  lemma ReadSuffixOfText(sx: Option<Suffix>)
    requires sx.Some? ==> AllDigits(sx.value.number)
    ensures SuffixText(sx) == [] || SuffixText(sx)[0] == '-'
    ensures ReadSuffix(SuffixText(sx)) == Some(sx)
  {
    if sx.Some? {
      var x := sx.value;
      var text := SuffixText(sx);
      assert text == "-" + (StageName(x.stage) + x.number);
      assert text[1..] == StageName(x.stage) + x.number;
      StageAtName(x.stage, x.number);
      assert text[1 + |StageName(x.stage)|..] == x.number;
    }
  }

  lemma RenderSplit(t: VersionTag)
    requires WellFormed(t)
    ensures var body := JoinDots(t.numbers) + SuffixText(t.suffix);
            var s := Render(t);
            && s != []
            && (s[0] == 'v' <==> t.leadingV)
            && (if t.leadingV then s[1..] else s) == body
  {
    var body := JoinDots(t.numbers) + SuffixText(t.suffix);
    JoinDotsStart(t.numbers);
    assert body[0] == t.numbers[0][0];
    if t.leadingV {
      assert Render(t) == "v" + body;
    } else {
      assert Render(t) == body;
    }
  }

  /** Every well-formed tag is read back from its rendering. */
  lemma ParseRender(t: VersionTag)
    requires WellFormed(t)
    ensures ParseVersion(Render(t)) == Some(t)
  {
    RenderSplit(t);
    ReadSuffixOfText(t.suffix);
    ReadNumbersOfJoin(t.numbers, SuffixText(t.suffix));
  }

  /** The reader accepts exactly the renderings of well-formed tags. */
  lemma ParseVersionIff(s: string)
    ensures ParseVersion(s).Some? <==> exists t :: WellFormed(t) && Render(t) == s
  {
    if exists t :: WellFormed(t) && Render(t) == s {
      var t :| WellFormed(t) && Render(t) == s;
      ParseRender(t);
    }
  }

  /** The tag a name matches, if it does: the name itself, or the name less
      one final newline, read as a tag. */
  function MatchedTag(name: string): (r: Option<VersionTag>)
    ensures r.Some? ==> WellFormed(r.value)
    ensures r.Some? ==> Render(r.value) == name || Render(r.value) + "\n" == name
  {
    var direct := ParseVersion(name);
    if direct.Some? then direct
    else if name != [] && name[|name| - 1] == '\n' then
      var u := name[..|name| - 1];
      assert u + [name[|name| - 1]] == name;
      ParseVersion(u)
    else None
  }

  /** preg_match of the version pattern against a ref name. */
  predicate MatchesVersionPattern(name: string) {
    MatchedTag(name).Some?
  }

  /** The version label fetch_ref files a ref's package under. */
  function VersionLabel(name: string): string {
    if MatchesVersionPattern(name) then name else "dev-" + name
  }

  lemma MatchFromRendered(name: string, t: VersionTag)
    requires WellFormed(t) && (Render(t) == name || Render(t) + "\n" == name)
    ensures MatchesVersionPattern(name)
  {
    ParseRender(t);
    if Render(t) != name {
      assert name[..|name| - 1] == Render(t);
    }
  }

  /** A name is its own label exactly when it renders a well-formed tag,
      possibly followed by one newline; every other name gets "dev-". */
  lemma VersionLabelSpec(name: string)
    ensures (exists t :: WellFormed(t) && (Render(t) == name || Render(t) + "\n" == name))
            <==> VersionLabel(name) == name
    ensures VersionLabel(name) != name ==> VersionLabel(name) == "dev-" + name
  {
    if MatchesVersionPattern(name) {
      var t := MatchedTag(name).value;
      assert WellFormed(t) && (Render(t) == name || Render(t) + "\n" == name);
    }
    forall t | WellFormed(t) && (Render(t) == name || Render(t) + "\n" == name)
      ensures MatchesVersionPattern(name)
    {
      MatchFromRendered(name, t);
    }
    assert |"dev-" + name| != |name|;
  }

  /** Names the pattern accepts start with "v" or a digit. */
  lemma MatchStartsWithVOrDigit(name: string)
    ensures MatchesVersionPattern(name) ==> name != [] && (name[0] == 'v' || IsDigit(name[0]))
  {
    if MatchesVersionPattern(name) {
      var t := MatchedTag(name).value;
      JoinDotsStart(t.numbers);
      var s := Render(t);
      assert !t.leadingV ==> s[0] == t.numbers[0][0];
      assert name[0] == s[0];
    }
  }

  /** Distinct ref names always get distinct labels, so two refs only compete
      for a version when they carry the same name. */
  lemma VersionLabelInjective(a: string, b: string)
    requires VersionLabel(a) == VersionLabel(b)
    ensures a == b
  {
    MatchStartsWithVOrDigit(a);
    MatchStartsWithVOrDigit(b);
    assert ("dev-" + a)[0] == 'd' && ("dev-" + b)[0] == 'd';
    if !MatchesVersionPattern(a) && !MatchesVersionPattern(b) {
      assert a == ("dev-" + a)[4..];
      assert b == ("dev-" + b)[4..];
    }
  }

  /** A pre-release tag is its own label. */
  lemma PrereleaseTagLabel()
    ensures VersionLabel("v2.3.1-beta4") == "v2.3.1-beta4"
  {
    var t := VersionTag(true, ["2", "3", "1"], Some(Suffix(Beta, "4")));
    assert JoinDots(["2", "3", "1"]) == "2.3.1" by {
      assert ["2", "3", "1"][1..] == ["3", "1"];
      assert ["3", "1"][1..] == ["1"];
    }
    assert Render(t) == "v2.3.1-beta4";
    ParseRender(t);
  }

  /** A branch name is prefixed with "dev-". */
  lemma BranchLabel()
    ensures VersionLabel("feature/x") == "dev-feature/x"
  {
    MatchStartsWithVOrDigit("feature/x");
  }

  /** A trailing component that is not a number makes a branch label. */
  lemma WildcardBranchLabel()
    ensures VersionLabel("1.0.x") == "dev-1.0.x"
  {
    WildcardNumbers();
    assert ReadSuffix(".x").None?;
    assert ParseVersion("1.0.x").None?;
  }

  /** "1.0.x" reads as the numbers 1 and 0, followed by ".x". */
  lemma WildcardNumbers()
    ensures ReadNumbers("1.0.x") == (["1", "0"], ".x")
  {
    assert DigitRun("x") == 0;
    ReadNumbersLast("0", ".x");
    assert "0" + ".x" == "0.x";
    assert ReadNumbers("0.x") == (["0"], ".x");
    ReadNumbersMore("1", "0.x");
    assert "1" + "." + "0.x" == "1.0.x";
    assert ["1"] + ["0"] == ["1", "0"];
  }
}
