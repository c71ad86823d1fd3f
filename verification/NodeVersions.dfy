/** Release tags, their order and the `latest` aliases (backend/index/node_build.py,
    lines 58-90, 157-197; backend/routes/node_build.py, lines 79-83). */
module NodeVersions {
  import opened Basics
  import opened Numerals
  import opened TextOrder
  import opened Regex

  // ------------------------------------------------------------------------------ patterns

  /** `(?:-[0-9A-Za-z.\-]+)?$` */
  function DirectoryTail(): Pattern {
    Either(One(Exactly('-'), Plus(AlnumDotDash, true, Finish(""))), Finish(""))
  }

  function DirectoryCore(): Pattern {
    Plus(Digit, true, One(Exactly('.'), Plus(Digit, true, One(Exactly('.'), Plus(Digit, true, DirectoryTail())))))
  }

  /** `_RELEASE_DIR_PATTERN` */
  function ReleaseDirectoryPattern(): Pattern {
    Either(One(Exactly('v'), DirectoryCore()), DirectoryCore())
  }

  predicate IsReleaseTag(tag: string) {
    Match(ReleaseDirectoryPattern(), tag).Some?
  }

  /** `(?:-(?P<pre>[0-9A-Za-z.\-]+))?$` */
  function PrePart(): Pattern {
    Either(One(Exactly('-'), Open("pre", Plus(AlnumDotDash, true, Close("pre", Finish(""))))), Finish(""))
  }

  function PatchPart(): Pattern {
    Close("minor", Either(One(Exactly('.'), Open("patch", Plus(Digit, true, Close("patch", PrePart())))), PrePart()))
  }

  function MinorPart(): Pattern {
    Close("major", One(Exactly('.'), Open("minor", Plus(Digit, true, PatchPart()))))
  }

  function MajorPart(): Pattern {
    Open("major", Plus(Digit, true, MinorPart()))
  }

  /** `_SEMVER_PATTERN` */
  function SemverPattern(): Pattern {
    Either(One(Exactly('v'), MajorPart()), MajorPart())
  }

  lemma TailCovered()
    ensures Covers(PrePart(), DirectoryTail())
  {
  }

  lemma PlusCovers(cls: Class, q: Pattern, p: Pattern)
    requires Covers(q, p)
    ensures Covers(Plus(cls, true, q), Plus(cls, true, p))
  {
  }

  lemma CoreCovered()
    ensures Covers(MajorPart(), DirectoryCore())
  {
    PatchCovered();
    PlusCovers(Digit, PatchPart(), One(Exactly('.'), Plus(Digit, true, DirectoryTail())));
  }

  lemma PatchCovered()
    ensures Covers(PatchPart(), One(Exactly('.'), Plus(Digit, true, DirectoryTail())))
  {
    TailCovered();
    OptionalPatch(PrePart(), DirectoryTail());
  }

  lemma OptionalPatch(q: Pattern, p: Pattern)
    requires Covers(q, p)
    ensures Covers(Close("minor", Either(One(Exactly('.'), Open("patch", Plus(Digit, true, Close("patch", q)))), q)),
                   One(Exactly('.'), Plus(Digit, true, p)))
  {
    PlusCovers(Digit, Close("patch", q), p);
    assert Covers(Open("patch", Plus(Digit, true, Close("patch", q))), Plus(Digit, true, p));
    assert Covers(One(Exactly('.'), Open("patch", Plus(Digit, true, Close("patch", q)))), One(Exactly('.'), Plus(Digit, true, p)));
  }

  lemma DirectoriesCovered()
    ensures Covers(SemverPattern(), ReleaseDirectoryPattern())
  {
    CoreCovered();
  }

  /** A newline after a tag does not keep a directory out. */
  lemma NewlineTagsAreAccepted(tag: string)
    requires IsReleaseTag(tag) && !EndsInNewline(tag)
    ensures IsReleaseTag(tag + "\n")
  {
    TryFindsExactlyTheMatches(ReleaseDirectoryPattern(), tag);
    NewlineAccepted(ReleaseDirectoryPattern(), tag);
    TryFindsExactlyTheMatches(ReleaseDirectoryPattern(), tag + "\n");
  }

  /** Every tag the index accepts as a release directory has a proper version key. */
  lemma ReleaseTagsHaveKeys(tag: string)
    requires IsReleaseTag(tag)
    ensures Match(SemverPattern(), tag).Some?
  {
    TryFindsExactlyTheMatches(ReleaseDirectoryPattern(), tag);
    DirectoriesCovered();
    CoveredLanguage(SemverPattern(), ReleaseDirectoryPattern(), tag);
    TryFindsExactlyTheMatches(SemverPattern(), tag);
  }

  // ----------------------------------------------------------------------------- the order

  datatype Key = Key(major: nat, minor: nat, patch: nat, final: nat, pre: string)

  /** `_version_key` */
  function VersionKey(tag: string): Key {
    match Match(SemverPattern(), tag)
    case None => Key(0, 0, 0, 0, tag)
    case Some(m) =>
      var pre := GroupOr(m, "pre", "");
      Key(ToInt(GroupOr(m, "major", "")), ToInt(GroupOr(m, "minor", "")), ToInt(GroupOr(m, "patch", "0")),
          if pre == "" then 1 else 0, pre)
  }

  /** Tuple comparison. */
  predicate KeyLess(a: Key, b: Key) {
    if a.major != b.major then a.major < b.major
    else if a.minor != b.minor then a.minor < b.minor
    else if a.patch != b.patch then a.patch < b.patch
    else if a.final != b.final then a.final < b.final
    else Less(a.pre, b.pre)
  }

  lemma KeyOrderIsTotal(a: Key, b: Key, c: Key)
    ensures KeyLess(a, b) || a == b || KeyLess(b, a)
    ensures !(KeyLess(a, b) && KeyLess(b, a)) && !KeyLess(a, a)
    ensures KeyLess(a, b) && KeyLess(b, c) ==> KeyLess(a, c)
  {
    LessTotal(a.pre, b.pre);
    LessIrreflexive(a.pre);
    if Less(a.pre, b.pre) && Less(b.pre, a.pre) {
      LessTransitive(a.pre, b.pre, a.pre);
    }
    if Less(a.pre, b.pre) && Less(b.pre, c.pre) {
      LessTransitive(a.pre, b.pre, c.pre);
    }
  }

  /** Ranks below: never strictly newer than. */
  predicate NotNewer(a: string, b: string) {
    !KeyLess(VersionKey(b), VersionKey(a))
  }

  lemma NotNewerIsPreorder(a: string, b: string, c: string)
    ensures NotNewer(a, a) && (NotNewer(a, b) || NotNewer(b, a))
    ensures NotNewer(a, b) && NotNewer(b, c) ==> NotNewer(a, c)
  {
    KeyOrderIsTotal(VersionKey(a), VersionKey(b), VersionKey(c));
    KeyOrderIsTotal(VersionKey(c), VersionKey(a), VersionKey(b));
    KeyOrderIsTotal(VersionKey(c), VersionKey(b), VersionKey(a));
  }

  // ------------------------------------------------------------------- what the key reads

  /** A tag by its parts: optional `v`, three numbers, an optional prerelease, and the final
      newline that `$` lets through. */
  datatype Tag = Tag(v: bool, major: string, minor: string, patch: string, pre: string, newline: bool)

  predicate WellFormedTag(t: Tag) {
    IsNumber(t.major) && IsNumber(t.minor) && IsNumber(t.patch) && AllIn(t.pre, AlnumDotDash)
  }

  function EndText(t: Tag): string {
    if t.newline then "\n" else ""
  }

  function PreText(t: Tag): string {
    if t.pre == "" then EndText(t) else "-" + (t.pre + EndText(t))
  }

  function PatchText(t: Tag): string {
    "." + (t.patch + PreText(t))
  }

  function MinorText(t: Tag): string {
    "." + (t.minor + PatchText(t))
  }

  function TagText(t: Tag): string {
    if t.v then "v" + (t.major + MinorText(t)) else t.major + MinorText(t)
  }

  lemma NumberField(g: string, rest: Pattern, a: string, t: string, m: Groups)
    requires IsNumber(a) && Try(rest, t) == Some(m) && (t == "" || !IsDigit(t[0]))
    ensures Try(Open(g, Plus(Digit, true, Close(g, rest))), a + t)
         == Some(m[g := Span(|t|, |t|)][g := Span(|a + t|, |t|)])
  {
    GreedyPlus(Digit, Close(g, rest), a, t);
    OpenAround(g, Plus(Digit, true, Close(g, rest)), a + t, m[g := Span(|t|, |t|)]);
  }

  lemma PreField(t: Tag) returns (m: Groups)
    requires WellFormedTag(t)
    ensures Try(PrePart(), PreText(t)) == Some(m)
    ensures "pre" in m <==> t.pre != ""
    ensures t.pre != "" ==> m["pre"] == Span(|t.pre + EndText(t)|, |EndText(t)|)
  {
    var end := EndText(t);
    if t.pre == "" {
      m := map[];
    } else {
      var close := Close("pre", Finish(""));
      var m0: Groups := map["pre" := Span(|end|, |end|)];
      assert Try(close, end) == Some(m0);
      GreedyPlus(AlnumDotDash, close, t.pre, end);
      OpenAround("pre", Plus(AlnumDotDash, true, close), t.pre + end, m0);
      m := m0["pre" := Span(|t.pre + end|, |end|)];
      assert PreText(t)[1..] == t.pre + end;
    }
  }

  lemma PatchField(t: Tag) returns (m: Groups)
    requires WellFormedTag(t)
    ensures Try(PatchPart(), PatchText(t)) == Some(m)
    ensures "patch" in m && m["patch"] == Span(|t.patch + PreText(t)|, |PreText(t)|)
    ensures "pre" in m <==> t.pre != ""
    ensures t.pre != "" ==> m["pre"] == Span(|t.pre + EndText(t)|, |EndText(t)|)
    ensures "minor" in m && m["minor"].end == |PatchText(t)|
  {
    var m0 := PreField(t);
    NumberField("patch", PrePart(), t.patch, PreText(t), m0);
    assert PatchText(t)[1..] == t.patch + PreText(t);
    var m1 := m0["patch" := Span(|PreText(t)|, |PreText(t)|)]["patch" := Span(|t.patch + PreText(t)|, |PreText(t)|)];
    var field := Open("patch", Plus(Digit, true, Close("patch", PrePart())));
    assert Try(Either(One(Exactly('.'), field), PrePart()), PatchText(t)) == Some(m1);
    m := m1["minor" := Span(|PatchText(t)|, |PatchText(t)|)];
  }

  lemma MinorField(t: Tag) returns (m: Groups)
    requires WellFormedTag(t)
    ensures Try(MinorPart(), MinorText(t)) == Some(m)
    ensures "minor" in m && m["minor"] == Span(|t.minor + PatchText(t)|, |PatchText(t)|)
    ensures "patch" in m && m["patch"] == Span(|t.patch + PreText(t)|, |PreText(t)|)
    ensures "pre" in m <==> t.pre != ""
    ensures t.pre != "" ==> m["pre"] == Span(|t.pre + EndText(t)|, |EndText(t)|)
    ensures "major" in m && m["major"].end == |MinorText(t)|
  {
    var m0 := PatchField(t);
    GreedyPlus(Digit, PatchPart(), t.minor, PatchText(t));
    OpenAround("minor", Plus(Digit, true, PatchPart()), t.minor + PatchText(t), m0);
    assert MinorText(t)[1..] == t.minor + PatchText(t);
    var m1 := m0["minor" := Span(|t.minor + PatchText(t)|, |PatchText(t)|)];
    assert Try(One(Exactly('.'), Open("minor", Plus(Digit, true, PatchPart()))), MinorText(t)) == Some(m1);
    m := m1["major" := Span(|MinorText(t)|, |MinorText(t)|)];
  }

  lemma MajorField(t: Tag) returns (m: Groups)
    requires WellFormedTag(t)
    ensures Try(SemverPattern(), TagText(t)) == Some(m)
    ensures "major" in m && m["major"] == Span(|t.major + MinorText(t)|, |MinorText(t)|)
    ensures "minor" in m && m["minor"] == Span(|t.minor + PatchText(t)|, |PatchText(t)|)
    ensures "patch" in m && m["patch"] == Span(|t.patch + PreText(t)|, |PreText(t)|)
    ensures "pre" in m <==> t.pre != ""
    ensures t.pre != "" ==> m["pre"] == Span(|t.pre + EndText(t)|, |EndText(t)|)
  {
    var m0 := MinorField(t);
    var s := t.major + MinorText(t);
    GreedyPlus(Digit, MinorPart(), t.major, MinorText(t));
    OpenAround("major", Plus(Digit, true, MinorPart()), s, m0);
    m := m0["major" := Span(|s|, |MinorText(t)|)];
    assert s[0] == t.major[0] && t.major[0] in t.major;
    if t.v {
      assert TagText(t)[1..] == s;
    }
  }

  lemma TagSplits(t: Tag)
    ensures var v := if t.v then "v" else "";
      && TagText(t) == v + t.major + MinorText(t)
      && TagText(t) == (v + t.major + ".") + t.minor + PatchText(t)
      && TagText(t) == (v + t.major + "." + t.minor + ".") + t.patch + PreText(t)
      && (t.pre != "" ==> TagText(t) == (v + t.major + "." + t.minor + "." + t.patch + "-") + t.pre + EndText(t))
  {
  }

  lemma GroupText(p: Pattern, s: string, m: Groups, g: string, before: string, text: string, after: string)
    requires Try(p, s) == Some(m) && g in m && m[g] == Span(|text + after|, |after|)
    requires s == before + text + after
    ensures Match(p, s).Some? && Match(p, s).value.Keys == m.Keys && Match(p, s).value[g] == text
  {
    assert s[|s| - |text + after|..|s| - |after|] == text;
  }

  lemma TagTexts(p: Pattern, t: Tag, f: string, m: Groups)
    requires f == TagText(t) && Try(p, f) == Some(m)
    requires "major" in m && m["major"] == Span(|t.major + MinorText(t)|, |MinorText(t)|)
    requires "minor" in m && m["minor"] == Span(|t.minor + PatchText(t)|, |PatchText(t)|)
    requires "patch" in m && m["patch"] == Span(|t.patch + PreText(t)|, |PreText(t)|)
    requires ("pre" in m <==> t.pre != "") && (t.pre != "" ==> m["pre"] == Span(|t.pre + EndText(t)|, |EndText(t)|))
    ensures Match(p, f).Some?
    ensures var r := Match(p, f).value;
      && "major" in r && r["major"] == t.major && "minor" in r && r["minor"] == t.minor
      && "patch" in r && r["patch"] == t.patch
      && ("pre" in r <==> t.pre != "") && ("pre" in r ==> r["pre"] == t.pre)
  {
    var v := if t.v then "v" else "";
    TagSplits(t);
    GroupText(p, f, m, "major", v, t.major, MinorText(t));
    GroupText(p, f, m, "minor", v + t.major + ".", t.minor, PatchText(t));
    GroupText(p, f, m, "patch", v + t.major + "." + t.minor + ".", t.patch, PreText(t));
    if t.pre != "" {
      GroupText(p, f, m, "pre", v + t.major + "." + t.minor + "." + t.patch + "-", t.pre, EndText(t));
    }
  }

  lemma SemverTexts(t: Tag)
    requires WellFormedTag(t)
    ensures Match(SemverPattern(), TagText(t)).Some?
    ensures var m := Match(SemverPattern(), TagText(t)).value;
      && "major" in m && m["major"] == t.major && "minor" in m && m["minor"] == t.minor
      && "patch" in m && m["patch"] == t.patch
      && ("pre" in m <==> t.pre != "") && ("pre" in m ==> m["pre"] == t.pre)
  {
    var m := MajorField(t);
    TagTexts(SemverPattern(), t, TagText(t), m);
  }

  /** The three numbers of a release. */
  datatype Core = Core(major: nat, minor: nat, patch: nat)

  /** The tag's numerals print the three numbers, leading zeros allowed. */
  predicate Spells(t: Tag, c: Core) {
    Writes(t.major, c.major) && Writes(t.minor, c.minor) && Writes(t.patch, c.patch) && AllIn(t.pre, AlnumDotDash)
  }

  lemma NumeralsAreNumbers(s: string)
    ensures IsNumber(s) <==> IsNumeral(s)
  {
    forall c ensures In(c, Digit) <==> IsDigit(c) {
    }
  }

  lemma SpelledNumbers(t: Tag, c: Core)
    requires Spells(t, c)
    ensures WellFormedTag(t)
    ensures ToInt(t.major) == c.major && ToInt(t.minor) == c.minor && ToInt(t.patch) == c.patch
  {
    WrittenNumber(t.major, c.major);
    WrittenNumber(t.minor, c.minor);
    WrittenNumber(t.patch, c.patch);
  }

  /** Every tag spells exactly one release. */
  lemma EveryTagSpells(t: Tag) returns (c: Core)
    requires WellFormedTag(t)
    ensures forall d :: Spells(t, d) <==> d == c
  {
    NumeralsAreNumbers(t.major);
    NumeralsAreNumbers(t.minor);
    NumeralsAreNumbers(t.patch);
    c := Core(ToInt(t.major), ToInt(t.minor), ToInt(t.patch));
    forall d ensures Spells(t, d) <==> d == c {
      WritesExactly(t.major, d.major);
      WritesExactly(t.minor, d.minor);
      WritesExactly(t.patch, d.patch);
    }
  }

  /** The key is the three numbers the tag spells, whether it is final, and the prerelease text. */
  lemma VersionKeyReads(t: Tag, c: Core)
    requires Spells(t, c)
    ensures VersionKey(TagText(t)) == Key(c.major, c.minor, c.patch, if t.pre == "" then 1 else 0, t.pre)
  {
    SpelledNumbers(t, c);
    SemverTexts(t);
  }

  /** Major, minor, patch, numerically. */
  predicate CoreBefore(a: Core, b: Core) {
    || a.major < b.major
    || (a.major == b.major && (a.minor < b.minor || (a.minor == b.minor && a.patch < b.patch)))
  }

  /** Section 11 of Semantic Versioning 2.0.0 on the three numbers and on a final release against
      its own prereleases; two prereleases of one release compare as plain strings. */
  predicate ReleasedBefore(a: Tag, m: Core, b: Tag, n: Core) {
    CoreBefore(m, n) || (m == n && a.pre != "" && (b.pre == "" || Less(a.pre, b.pre)))
  }

  lemma OrderFollowsSemver(a: Tag, m: Core, b: Tag, n: Core)
    requires Spells(a, m) && Spells(b, n)
    ensures KeyLess(VersionKey(TagText(a)), VersionKey(TagText(b))) <==> ReleasedBefore(a, m, b, n)
  {
    VersionKeyReads(a, m);
    VersionKeyReads(b, n);
    LessIrreflexive(a.pre);
  }

  lemma PrereleasesInOrder(a: Tag, b: Tag, s: string, t: string)
    requires WellFormedTag(a) && WellFormedTag(b) && a == b.(pre := a.pre) && Less(a.pre, b.pre) && a.pre != ""
    requires TagText(a) == s && TagText(b) == t
    ensures KeyLess(VersionKey(s), VersionKey(t))
  {
    var m := EveryTagSpells(a);
    var n := EveryTagSpells(b);
    assert Spells(a, m) && Spells(b, m);
    OrderFollowsSemver(a, m, b, n);
  }

  /** Where plain strings part from Semantic Versioning: numeric identifiers are not compared
      as numbers, so rc.10 sorts before rc.9. */
  lemma PrereleasesCompareAsText()
    ensures KeyLess(VersionKey("v1.0.0-rc.10"), VersionKey("v1.0.0-rc.9"))
  {
    CandidatesInOrder("rc.10", "rc.9", "v1.0.0-rc.10", "v1.0.0-rc.9");
  }

  lemma CandidatesInOrder(x: string, y: string, s: string, t: string)
    requires x == "rc.10" && y == "rc.9" && s == "v1.0.0-" + x && t == "v1.0.0-" + y
    ensures KeyLess(VersionKey(s), VersionKey(t))
  {
    TenBeforeNine(x, y);
    PlainText(x);
    PlainText(y);
    var a := CandidateTag(x, s);
    var b := CandidateTag(y, t);
    PrereleasesInOrder(a, b, s, t);
  }

  lemma PlainText(x: string)
    requires x == "rc.10" || x == "rc.9"
    ensures x != "" && AllIn(x, AlnumDotDash)
  {
  }

  lemma CandidateTag(pre: string, text: string) returns (t: Tag)
    requires AllIn(pre, AlnumDotDash) && pre != "" && text == "v1.0.0-" + pre
    ensures WellFormedTag(t) && t.pre == pre && t == Tag(true, "1", "0", "0", pre, false) && TagText(t) == text
  {
    t := Tag(true, "1", "0", "0", pre, false);
    assert pre + EndText(t) == pre;
    CandidateText(PatchText(t), PreText(t));
    assert "v1.0.0" + ("-" + pre) == "v1.0.0-" + pre;
  }

  lemma CandidateText(patch: string, pre: string)
    requires patch == "." + ("0" + pre)
    ensures "v" + ("1" + ("." + ("0" + patch))) == "v1.0.0" + pre
  {
  }

  lemma TenBeforeNine(x: string, y: string)
    requires x == "rc.10" && y == "rc.9"
    ensures Less(x, y)
  {
    assert Less(x[3..], y[3..]);
    assert Less(x[2..], y[2..]);
    assert Less(x[1..], y[1..]);
  }

  // ------------------------------------------------------------ which directories are releases

  lemma TailIsAccepted(t: Tag)
    requires WellFormedTag(t)
    ensures Accepts(DirectoryTail(), PreText(t))
  {
    if t.pre != "" {
      PlusAccepts(AlnumDotDash, true, Finish(""), t.pre, EndText(t));
      assert PreText(t)[1..] == t.pre + EndText(t);
    }
  }

  lemma CoreIsAccepted(t: Tag)
    requires WellFormedTag(t)
    ensures Accepts(DirectoryCore(), t.major + MinorText(t))
  {
    var patch := Plus(Digit, true, DirectoryTail());
    var minor := Plus(Digit, true, One(Exactly('.'), patch));
    TailIsAccepted(t);
    PlusAccepts(Digit, true, DirectoryTail(), t.patch, PreText(t));
    assert PatchText(t)[1..] == t.patch + PreText(t);
    PlusAccepts(Digit, true, One(Exactly('.'), patch), t.minor, PatchText(t));
    assert MinorText(t)[1..] == t.minor + PatchText(t);
    PlusAccepts(Digit, true, One(Exactly('.'), minor), t.major, MinorText(t));
  }

  lemma TagIsAccepted(t: Tag)
    requires WellFormedTag(t)
    ensures IsReleaseTag(TagText(t))
  {
    CoreIsAccepted(t);
    if t.v {
      assert TagText(t)[1..] == t.major + MinorText(t);
    }
    TryFindsExactlyTheMatches(ReleaseDirectoryPattern(), TagText(t));
  }

  lemma AcceptedTail(s: string) returns (pre: string, newline: bool)
    requires Accepts(DirectoryTail(), s)
    ensures AllIn(pre, AlnumDotDash)
    ensures s == PreText(Tag(false, "", "", "", pre, newline))
  {
    if Accepts(Finish(""), s) {
      pre, newline := "", s != "";
    } else {
      var end;
      pre, end := PlusParts(AlnumDotDash, true, Finish(""), s[1..]);
      newline := end != "";
      assert s == "-" + s[1..];
    }
  }

  lemma AcceptedCore(s: string) returns (t: Tag)
    requires Accepts(DirectoryCore(), s)
    ensures WellFormedTag(t) && !t.v && s == TagText(t)
  {
    var patch := Plus(Digit, true, DirectoryTail());
    var minor := Plus(Digit, true, One(Exactly('.'), patch));
    var a, u := PlusParts(Digit, true, One(Exactly('.'), minor), s);
    var b, v := PlusParts(Digit, true, One(Exactly('.'), patch), u[1..]);
    var c, w := PlusParts(Digit, true, DirectoryTail(), v[1..]);
    var pre, newline := AcceptedTail(w);
    t := Tag(false, a, b, c, pre, newline);
    assert u == "." + u[1..] && v == "." + v[1..];
  }

  /** The release directories are exactly `v1.2.3` or `1.2.3` with an optional prerelease: three
      numerals, and the newline that `$` lets through. */
  lemma ReleaseTagsAreTags(s: string)
    ensures IsReleaseTag(s) <==> exists t :: WellFormedTag(t) && TagText(t) == s
  {
    if IsReleaseTag(s) {
      TryFindsExactlyTheMatches(ReleaseDirectoryPattern(), s);
      if Accepts(DirectoryCore(), s) {
        var t := AcceptedCore(s);
      } else {
        var t := AcceptedCore(s[1..]);
        assert s == "v" + s[1..];
        assert TagText(t.(v := true)) == s;
        assert WellFormedTag(t.(v := true));
      }
    }
    if t :| WellFormedTag(t) && TagText(t) == s {
      TagIsAccepted(t);
    }
  }

  // ------------------------------------------------------------------- newest first, aliases

  ghost predicate NewestFirst(s: seq<string>) {
    forall i, j :: 0 <= i < j < |s| ==> NotNewer(s[j], s[i])
  }

  /** Inserts by the order of `sorted(..., key=_version_key, reverse=True)`, ties kept in place. */
  function InsertTag(s: seq<string>, t: string): (r: seq<string>)
    ensures multiset(r) == multiset(s) + multiset{t}
    ensures |r| == |s| + 1
  {
    if s == [] then [t]
    else
      assert s == [s[0]] + s[1..];
      if KeyLess(VersionKey(s[0]), VersionKey(t)) then [t] + s else [s[0]] + InsertTag(s[1..], t)
  }

  function SortTags(s: seq<string>): (r: seq<string>)
    ensures multiset(r) == multiset(s) && |r| == |s|
  {
    if s == [] then []
    else
      assert s == s[..|s| - 1] + [s[|s| - 1]];
      InsertTag(SortTags(s[..|s| - 1]), s[|s| - 1])
  }

  lemma {:induction false} InsertTagKeepsOrder(s: seq<string>, t: string)
    requires NewestFirst(s)
    ensures NewestFirst(InsertTag(s, t))
    decreases |s|
  {
    if s != [] {
      if KeyLess(VersionKey(s[0]), VersionKey(t)) {
        KeyOrderIsTotal(VersionKey(s[0]), VersionKey(t), VersionKey(t));
        forall j | 0 <= j < |s| ensures NotNewer(s[j], t) {
          NotNewerIsPreorder(s[j], s[0], t);
        }
      } else {
        InsertTagKeepsOrder(s[1..], t);
        var rest := InsertTag(s[1..], t);
        forall j | 0 <= j < |rest| ensures NotNewer(rest[j], s[0]) {
          SameMultisetSameElements(rest, s[1..] + [t], rest[j]);
          assert rest[j] in s[1..] + [t];
        }
      }
    }
  }

  lemma {:induction false} SortTagsNewestFirst(s: seq<string>)
    ensures NewestFirst(SortTags(s))
    decreases |s|
  {
    if s != [] {
      SortTagsNewestFirst(s[..|s| - 1]);
      InsertTagKeepsOrder(SortTags(s[..|s| - 1]), s[|s| - 1]);
    }
  }

  lemma SortTagsElements(s: seq<string>, t: string)
    ensures t in SortTags(s) <==> t in s
  {
    SameMultisetSameElements(SortTags(s), s, t);
  }

  /** `^latest(?:-v(?P<major>\d+)\.x)?$` */
  function AliasPattern(): Pattern {
    Lit("latest", AliasTail())
  }

  function AliasNumber(): Pattern {
    Open("major", Plus(Digit, true, Close("major", Finish(".x"))))
  }

  function AliasTail(): Pattern {
    Either(Lit("-v", AliasNumber()), Finish(""))
  }

  datatype Alias = NoAlias | Latest | LatestMajor(major: nat)

  function ParseAlias(tag: string): Alias {
    match Match(AliasPattern(), tag)
    case None => NoAlias
    case Some(m) =>
      var major := GroupOr(m, "major", "");
      if major != "" then LatestMajor(ToInt(major)) else Latest
  }

  /** The major number `resolve_alias` reads off a release tag. */
  function MajorOf(tag: string): Option<nat> {
    match Match(SemverPattern(), tag)
    case None => None
    case Some(m) => Some(ToInt(GroupOr(m, "major", "")))
  }

  predicate Wanted(alias: Alias, release: string) {
    alias.Latest? || (alias.LatestMajor? && MajorOf(release) == Some(alias.major))
  }

  lemma FirstIsNewest(alias: Alias, ordered: seq<string>, i: nat)
    requires i < |ordered| && forall j :: 0 <= j < i ==> !Wanted(alias, ordered[j])
    requires forall j, k :: 0 <= j < k < |ordered| ==> NotNewer(ordered[k], ordered[j])
    ensures forall x :: x in ordered && Wanted(alias, x) ==> NotNewer(x, ordered[i])
  {
    NotNewerIsPreorder(ordered[i], ordered[i], ordered[i]);
  }

  /** A wanted release that no wanted one is strictly newer than, or None when none is wanted. */
  ghost predicate Answers(releases: seq<string>, tag: string, r: Option<string>) {
    match r
    case None => forall x :: x in releases ==> !Wanted(ParseAlias(tag), x)
    case Some(best) =>
      && best in releases && Wanted(ParseAlias(tag), best)
      && forall x :: x in releases && Wanted(ParseAlias(tag), x) ==> NotNewer(x, best)
  }

  lemma FirstAnswers(releases: seq<string>, tag: string, ordered: seq<string>, i: nat)
    requires ordered == SortTags(releases) && i < |ordered| && Wanted(ParseAlias(tag), ordered[i])
    requires forall j :: 0 <= j < i ==> !Wanted(ParseAlias(tag), ordered[j])
    ensures Answers(releases, tag, Some(ordered[i]))
  {
    SortTagsNewestFirst(releases);
    FirstIsNewest(ParseAlias(tag), ordered, i);
    SortTagsElements(releases, ordered[i]);
    forall x | x in releases && Wanted(ParseAlias(tag), x) ensures NotNewer(x, ordered[i]) {
      SortTagsElements(releases, x);
    }
  }

  lemma NoneAnswers(releases: seq<string>, tag: string, ordered: seq<string>)
    requires ordered == SortTags(releases) && forall j :: 0 <= j < |ordered| ==> !Wanted(ParseAlias(tag), ordered[j])
    ensures Answers(releases, tag, None)
  {
    forall x | x in releases ensures !Wanted(ParseAlias(tag), x) {
      SortTagsElements(releases, x);
    }
  }

  /** `resolve_alias` */
  method ResolveAlias(releases: seq<string>, tag: string) returns (r: Option<string>)
    ensures Answers(releases, tag, r)
  {
    var alias := ParseAlias(tag);
    if alias.NoAlias? {
      return None;
    }
    var ordered := SortTags(releases);
    var i := FirstWanted(alias, ordered);
    if i < |ordered| {
      FirstAnswers(releases, tag, ordered, i);
      return Some(ordered[i]);
    }
    NoneAnswers(releases, tag, ordered);
    return None;
  }

  /** The loop of `resolve_alias`. */
  method FirstWanted(alias: Alias, ordered: seq<string>) returns (i: nat)
    requires !alias.NoAlias?
    ensures i <= |ordered| && (i < |ordered| ==> Wanted(alias, ordered[i]))
    ensures forall j :: 0 <= j < i ==> !Wanted(alias, ordered[j])
  {
    i := 0;
    while i < |ordered|
      invariant i <= |ordered|
      invariant forall j :: 0 <= j < i ==> !Wanted(alias, ordered[j])
    {
      if alias.Latest? || MajorOf(ordered[i]) == Some(alias.major) {
        return;
      }
      i := i + 1;
    }
  }

  // --------------------------------------------------------------------- what an alias asks for

  /** The tag asks for the newest release, or for the newest of one major number. */
  ghost predicate Asks(tag: string, major: Option<nat>) {
    match major
    case None => FinishesWith(tag, "latest")
    case Some(n) => exists numeral :: Writes(numeral, n) && FinishesWith(tag, "latest-v" + (numeral + ".x"))
  }

  lemma SetTwice(m: Groups, g: string, first: Span, second: Span)
    ensures m[g := first][g := second] == m[g := second]
  {
  }

  lemma MajorNumber(major: string, tail: string)
    requires IsNumber(major) && Try(Finish(".x"), tail) == Some(map[]) && tail[0] == '.'
    ensures Try(AliasNumber(), major + tail) == Some(map["major" := Span(|major + tail|, |tail|)])
  {
    NumberField("major", Finish(".x"), major, tail, map[]);
    SetTwice(map[], "major", Span(|tail|, |tail|), Span(|major + tail|, |tail|));
  }

  lemma MajorAlias(major: string, end: string)
    requires IsNumber(major) && (end == "" || end == "\n")
    ensures ParseAlias("latest-v" + (major + (".x" + end))) == LatestMajor(ToInt(major))
  {
    var rest := major + (".x" + end);
    var tag := "latest-v" + rest;
    MajorNumber(major, ".x" + end);
    LitStep("-v", AliasNumber(), rest);
    LitStep("latest", AliasTail(), "-v" + rest);
    assert "latest" + ("-v" + rest) == tag;
    AliasGroup(tag, "latest-v", major, ".x" + end);
  }

  lemma AliasGroup(tag: string, before: string, major: string, after: string)
    requires major != "" && tag == before + (major + after)
    requires Try(AliasPattern(), tag) == Some(map["major" := Span(|major + after|, |after|)])
    ensures ParseAlias(tag) == LatestMajor(ToInt(major))
  {
    assert tag[|tag| - |major + after|..|tag| - |after|] == major;
  }

  lemma PlainAlias(end: string)
    requires end == "" || end == "\n"
    ensures ParseAlias("latest" + end) == Latest
  {
    LitStep("latest", AliasTail(), end);
    LitMismatch("-v", AliasNumber(), end);
    assert Try(AliasTail(), end) == Some(map[]);
  }

  lemma AliasReads(tag: string, major: Option<nat>)
    requires Asks(tag, major)
    ensures ParseAlias(tag) == match major case None => Latest case Some(n) => LatestMajor(n)
  {
    match major
    case None =>
      var end := if tag == "latest" then "" else "\n";
      PlainAlias(end);
      assert tag == "latest" + end;
    case Some(n) =>
      var numeral :| Writes(numeral, n) && FinishesWith(tag, "latest-v" + (numeral + ".x"));
      var end := if tag == "latest-v" + (numeral + ".x") then "" else "\n";
      WrittenNumber(numeral, n);
      NumeralsAreNumbers(numeral);
      MajorAlias(numeral, end);
      assert tag == "latest-v" + (numeral + (".x" + end));
  }

  lemma AliasTailParts(u: string) returns (major: Option<nat>)
    requires Try(AliasTail(), u).Some?
    ensures Asks("latest" + u, major)
  {
    if Try(Lit("-v", AliasNumber()), u).Some? {
      if !("-v" <= u) {
        LitMismatch("-v", AliasNumber(), u);
      }
      assert u == "-v" + u[2..];
      LitStep("-v", AliasNumber(), u[2..]);
      TryFindsExactlyTheMatches(AliasNumber(), u[2..]);
      var numeral, end := PlusParts(Digit, true, Close("major", Finish(".x")), u[2..]);
      NumeralsAreNumbers(numeral);
      EveryNumeralWrites(numeral);
      major := Some(ToInt(numeral));
      assert "latest" + u == "latest-v" + (numeral + end);
      assert FinishesWith("latest" + u, "latest-v" + (numeral + ".x"));
    } else {
      major := None;
    }
  }

  /** `latest` and `latest-v20.x` are the aliases there are: each is read as what it asks for,
      and any other tag is no alias. */
  lemma AliasesRead(tag: string, major: Option<nat>)
    ensures Asks(tag, major) <==> ParseAlias(tag) == match major case None => Latest case Some(n) => LatestMajor(n)
    ensures ParseAlias(tag).NoAlias? <==> forall other :: !Asks(tag, other)
  {
    forall other | Asks(tag, other)
      ensures ParseAlias(tag) == match other case None => Latest case Some(n) => LatestMajor(n)
    {
      AliasReads(tag, other);
    }
    if !ParseAlias(tag).NoAlias? {
      if !("latest" <= tag) {
        LitMismatch("latest", AliasTail(), tag);
      }
      assert tag == "latest" + tag[6..];
      LitStep("latest", AliasTail(), tag[6..]);
      var asked := AliasTailParts(tag[6..]);
      AliasReads(tag, asked);
    }
  }

  predicate Fits(major: Option<nat>, c: Core) {
    major.Some? ==> c.major == major.value
  }

  lemma WantedReads(tag: string, major: Option<nat>, t: Tag, c: Core)
    requires Asks(tag, major) && Spells(t, c)
    ensures Wanted(ParseAlias(tag), TagText(t)) <==> Fits(major, c)
  {
    AliasReads(tag, major);
    SpelledNumbers(t, c);
    SemverTexts(t);
  }

  /** What `resolve_alias` answers, in the numbers that the tags spell: `latest` is a release none
      precedes, `latest-v20.x` one that none of major number 20 precedes, and no release of the
      number asked for exists when the answer is None. */
  lemma AliasAnswer(releases: seq<string>, tag: string, major: Option<nat>, r: Option<string>, t: Tag, c: Core)
    requires Asks(tag, major) && Spells(t, c) && Answers(releases, tag, r)
    ensures r.None? ==> TagText(t) in releases ==> !Fits(major, c)
    ensures r == Some(TagText(t)) ==> Fits(major, c)
    ensures r == Some(TagText(t)) ==>
              forall x, d :: Spells(x, d) && TagText(x) in releases && Fits(major, d) ==> !ReleasedBefore(t, c, x, d)
  {
    WantedReads(tag, major, t, c);
    if r == Some(TagText(t)) {
      forall x, d | Spells(x, d) && TagText(x) in releases && Fits(major, d) ensures !ReleasedBefore(t, c, x, d) {
        WantedReads(tag, major, x, d);
        OrderFollowsSemver(t, c, x, d);
      }
    }
  }

  // ------------------------------------------------------------------------ route resolution

  /** `_resolve`: an indexed tag is itself; anything else is tried as an alias. */
  method Resolve(index: map<string, seq<string>>, releases: seq<string>, tag: string) returns (r: Option<string>)
    requires forall k :: k in index ==> index[k] != []
    requires forall k :: k in releases <==> k in index
    ensures tag in index ==> r == Some(tag)
    ensures r.Some? ==> r.value in index && index[r.value] != []
    ensures r.None? <==> tag !in index && forall k :: k in index ==> !Wanted(ParseAlias(tag), k)
  {
    if tag in index && index[tag] != [] {
      return Some(tag);
    }
    r := ResolveAlias(releases, tag);
  }
}
