/** CPython archive names (backend/index/python_build.py, lines 12-47). */
module PythonNames {
  import opened Basics
  import opened Regex
  import opened Archives

  datatype BuildName = BuildName(flavor: string, version: string, date: string, triple: string, variant: string, extension: string)

  const BUILD_EXTENSIONS := [".tar.gz", ".tar.bz2", ".tar.xz", ".tar.zst", ".zip"]

  const EXTENSIONS := ["tar.gz", "tar.bz2", "tar.xz", "tar.zst", "zip"]

  // --------------------------------------------------------------------------- the pattern

  function Times(n: nat, cls: Class, rest: Pattern): Pattern {
    if n == 0 then rest else One(cls, Times(n - 1, cls, rest))
  }

  function VariantEnd(es: seq<string>): Pattern
    requires es != []
  {
    Close("variant", ExtensionPart(es))
  }

  /** `-(?P<variant>.+)` and the extension. */
  function VariantPart(es: seq<string>): Pattern
    requires es != []
  {
    One(Exactly('-'), Open("variant", Plus(Dot, true, VariantEnd(es))))
  }

  function DashWord(rest: Pattern): Pattern {
    One(Exactly('-'), Plus(NotDash, true, rest))
  }

  function TripleEnd(es: seq<string>): Pattern
    requires es != []
  {
    Close("triple", VariantPart(es))
  }

  /** `-(?P<triple>[^-]+-[^-]+-[^-]+-[^-]+)` */
  function TriplePart(es: seq<string>): Pattern
    requires es != []
  {
    One(Exactly('-'), Open("triple", Plus(NotDash, true, DashWord(DashWord(DashWord(TripleEnd(es)))))))
  }

  function DateEnd(es: seq<string>): Pattern
    requires es != []
  {
    Close("date", TriplePart(es))
  }

  /** `\+(?P<date>\d{8})` */
  function DatePart(es: seq<string>): Pattern
    requires es != []
  {
    One(Exactly('+'), Open("date", Times(8, Digit, DateEnd(es))))
  }

  function VersionEnd(es: seq<string>): Pattern
    requires es != []
  {
    Close("version", DatePart(es))
  }

  /** `(?:[a-z]+\d+)?` */
  function StagePart(es: seq<string>): Pattern
    requires es != []
  {
    Either(Plus(Lower, true, Plus(Digit, true, VersionEnd(es))), VersionEnd(es))
  }

  function CorePart(es: seq<string>): Pattern
    requires es != []
  {
    Plus(Digit, true, One(Exactly('.'), Plus(Digit, true, One(Exactly('.'), Plus(Digit, true, StagePart(es))))))
  }

  /** `-(?P<version>\d+\.\d+\.\d+(?:[a-z]+\d+)?)` */
  function VersionPart(es: seq<string>): Pattern
    requires es != []
  {
    One(Exactly('-'), Open("version", CorePart(es)))
  }

  function FlavorEnd(es: seq<string>): Pattern
    requires es != []
  {
    Close("flavor", VersionPart(es))
  }

  /** `_BUILD_PATTERN` */
  function BuildPattern(es: seq<string>): Pattern
    requires es != []
  {
    Open("flavor", Either(Lit("cpython", FlavorEnd(es)), Lit("pypy", FlavorEnd(es))))
  }

  /** `^\d{8}$`, the name of a release directory. */
  function ReleasePattern(): Pattern {
    Times(8, Digit, Finish(""))
  }

  predicate IsReleaseTag(tag: string) {
    Match(ReleasePattern(), tag).Some?
  }

  lemma {:induction false} DigitsThenEnd(n: nat, s: string)
    ensures Accepts(Times(n, Digit, Finish("")), s) <==> |s| >= n && AllIn(s[..n], Digit) && FinishesWith(s[n..], "")
    decreases n
  {
    if n == 0 {
      assert s[0..] == s;
    } else if s != "" {
      DigitsThenEnd(n - 1, s[1..]);
      if |s| >= n {
        FirstSlice(s, n - 1);
      }
    }
  }

  /** The release directories are the dates: eight digits, and the newline that `$` lets through. */
  lemma ReleaseTagsAreDates(tag: string)
    ensures IsReleaseTag(tag) <==> |tag| >= 8 && AllIn(tag[..8], Digit) && FinishesWith(tag[8..], "")
  {
    DigitsThenEnd(8, tag);
    TryFindsExactlyTheMatches(ReleasePattern(), tag);
  }

  predicate HasBuildExtension(f: string) {
    exists e :: e in BUILD_EXTENSIONS && HasSuffix(f, e)
  }

  function ParseWith(es: seq<string>, f: string): Option<BuildName>
    requires es != []
  {
    match Match(BuildPattern(es), f)
    case None => None
    case Some(m) =>
      Some(BuildName(GroupOr(m, "flavor", ""), GroupOr(m, "version", ""), GroupOr(m, "date", ""),
        GroupOr(m, "triple", ""), GroupOr(m, "variant", ""), GroupOr(m, "ext", "")))
  }

  /** `_parse_build_filename` */
  function ParseBuildFilename(f: string): Option<BuildName> {
    ParseWith(EXTENSIONS, f)
  }

  // ------------------------------------------------------------------------------ printing

  /** `stage` and `number` are empty for a final version. */
  datatype Parts = Parts(
    flavor: string, major: string, minor: string, patch: string, stage: string, number: string,
    date: string, words: seq<string>, variant: string, ext: string)

  predicate Word(w: string) {
    w != "" && AllIn(w, NotDash)
  }

  predicate WellFormed(es: seq<string>, p: Parts) {
    && (p.flavor == "cpython" || p.flavor == "pypy")
    && IsNumber(p.major) && IsNumber(p.minor) && IsNumber(p.patch)
    && (if p.stage == "" then p.number == "" else AllIn(p.stage, Lower) && IsNumber(p.number))
    && |p.date| == 8 && AllIn(p.date, Digit)
    && |p.words| == 4 && Word(p.words[0]) && Word(p.words[1]) && Word(p.words[2]) && Word(p.words[3])
    && p.variant != "" && AllIn(p.variant, Dot)
    && p.ext in es
  }

  function ExtText(p: Parts): string {
    "." + p.ext
  }

  function VariantText(p: Parts): string {
    "-" + (p.variant + ExtText(p))
  }

  function WordsText(a: string, b: string, c: string, d: string, rest: string): string {
    a + ("-" + (b + ("-" + (c + ("-" + (d + rest))))))
  }

  function Triple(p: Parts): string
    requires |p.words| == 4
  {
    WordsText(p.words[0], p.words[1], p.words[2], p.words[3], "")
  }

  function TripleText(p: Parts): string
    requires |p.words| == 4
  {
    "-" + WordsText(p.words[0], p.words[1], p.words[2], p.words[3], VariantText(p))
  }

  function DateText(p: Parts): string
    requires |p.words| == 4
  {
    "+" + (p.date + TripleText(p))
  }

  function CoreText(p: Parts, rest: string): string {
    p.major + ("." + (p.minor + ("." + (p.patch + (p.stage + (p.number + rest))))))
  }

  function VersionText(p: Parts): string {
    CoreText(p, "")
  }

  function Filename(p: Parts): string
    requires |p.words| == 4
  {
    p.flavor + ("-" + CoreText(p, DateText(p)))
  }

  function Expected(p: Parts): BuildName
    requires |p.words| == 4
  {
    BuildName(p.flavor, VersionText(p), p.date, Triple(p), p.variant, p.ext)
  }

  // ------------------------------------------------------------------ variant and extension

  lemma NoExtensionInside(es: seq<string>, e: string, n: nat)
    requires GoodExtensions(es) && e in es && 0 < n <= |e| + 1
    ensures Try(VariantEnd(es), ("." + e)[n..]).None?
  {
    var t := ("." + e)[n..];
    if Try(ExtensionPart(es), t).Some? {
      var d := ExtensionPartOnly(es, t);
      InsideExtension(es, e, n, d);
    }
  }

  lemma DottedIsDot(es: seq<string>, e: string)
    requires GoodExtensions(es) && e in es
    ensures AllIn("." + e, Dot)
  {
    NoNewlines(es);
  }

  function VariantGroups(p: Parts): Groups {
    ExtGroups(p)["variant" := Span(|p.variant + ExtText(p)|, |ExtText(p)|)]
  }

  // --------------------------------------------------------------- triple, date and version

  lemma Again(m: Groups, g: string, a: Span, b: Span)
    ensures m[g := a][g := b] == m[g := b]
  {
  }

  /** A group that closes where it is said to and opens around it. */
  lemma GroupAround(g: string, inner: Pattern, s: string, m: Groups, end: nat)
    requires Try(inner, s) == Some(m[g := Span(end, end)])
    ensures Try(Open(g, inner), s) == Some(m[g := Span(|s|, end)])
  {
    OpenAround(g, inner, s, m[g := Span(end, end)]);
    Again(m, g, Span(end, end), Span(|s|, end));
  }

  function ExtGroups(p: Parts): Groups {
    map["ext" := Span(|p.ext|, 0)]
  }

  /** The variant ends at the last place where an extension follows. */
  lemma VariantRun(es: seq<string>, p: Parts)
    requires GoodExtensions(es) && p.ext in es && p.variant != "" && AllIn(p.variant, Dot)
    ensures Try(Plus(Dot, true, VariantEnd(es)), p.variant + ExtText(p)) == Try(VariantEnd(es), ExtText(p))
    ensures Try(VariantEnd(es), ExtText(p)) == Some(ExtGroups(p)["variant" := Span(|ExtText(p)|, |ExtText(p)|)])
  {
    var e := ExtText(p);
    ExtensionPartMatches(es, p.ext);
    DottedIsDot(es, p.ext);
    forall n | 0 < n <= |e|
      ensures Try(VariantEnd(es), e[n..]).None?
    {
      NoExtensionInside(es, p.ext, n);
    }
    PlusBacktrack(Dot, VariantEnd(es), p.variant, e);
  }

  lemma VariantMatches(es: seq<string>, p: Parts)
    requires GoodExtensions(es) && p.ext in es && p.variant != "" && AllIn(p.variant, Dot)
    ensures Try(VariantPart(es), VariantText(p)) == Some(VariantGroups(p))
  {
    VariantRun(es, p);
    GroupAround("variant", Plus(Dot, true, VariantEnd(es)), p.variant + ExtText(p), ExtGroups(p), |ExtText(p)|);
    assert VariantText(p)[1..] == p.variant + ExtText(p);
  }

  lemma DashWordStep(rest: Pattern, w: string, t: string)
    requires Word(w) && t != "" && t[0] == '-' && Try(rest, t).Some?
    ensures Try(DashWord(rest), "-" + (w + t)) == Try(rest, t)
  {
    assert ("-" + (w + t))[1..] == w + t;
    GreedyPlus(NotDash, rest, w, t);
  }

  lemma WordsMatch(rest: Pattern, a: string, b: string, c: string, d: string, t: string)
    requires Word(a) && Word(b) && Word(c) && Word(d) && t != "" && t[0] == '-' && Try(rest, t).Some?
    ensures Try(Plus(NotDash, true, DashWord(DashWord(DashWord(rest)))), WordsText(a, b, c, d, t)) == Try(rest, t)
  {
    DashWordStep(rest, d, t);
    DashWordStep(DashWord(rest), c, "-" + (d + t));
    DashWordStep(DashWord(DashWord(rest)), b, "-" + (c + ("-" + (d + t))));
    GreedyPlus(NotDash, DashWord(DashWord(DashWord(rest))), a, "-" + (b + ("-" + (c + ("-" + (d + t))))));
  }

  function TripleGroups(p: Parts): Groups
    requires |p.words| == 4
  {
    VariantGroups(p)["triple" := Span(|TripleText(p)| - 1, |VariantText(p)|)]
  }

  lemma TripleMatches(es: seq<string>, p: Parts)
    requires GoodExtensions(es) && WellFormed(es, p)
    ensures Try(TriplePart(es), TripleText(p)) == Some(TripleGroups(p))
  {
    var t := VariantText(p);
    VariantMatches(es, p);
    assert Try(TripleEnd(es), t) == Some(VariantGroups(p)["triple" := Span(|t|, |t|)]);
    WordsMatch(TripleEnd(es), p.words[0], p.words[1], p.words[2], p.words[3], t);
    assert TripleText(p)[1..] == WordsText(p.words[0], p.words[1], p.words[2], p.words[3], t);
    GroupAround("triple", Plus(NotDash, true, DashWord(DashWord(DashWord(TripleEnd(es))))), TripleText(p)[1..], VariantGroups(p), |t|);
  }

  lemma {:induction false} TimesMatch(n: nat, cls: Class, rest: Pattern, a: string, t: string)
    requires |a| == n && AllIn(a, cls)
    ensures Try(Times(n, cls, rest), a + t) == Try(rest, t)
    decreases n
  {
    if n == 0 {
      assert a + t == t;
    } else {
      assert a[0] in a && (a + t)[1..] == a[1..] + t;
      TimesMatch(n - 1, cls, rest, a[1..], t);
    }
  }

  function DateGroups(p: Parts): Groups
    requires |p.words| == 4
  {
    TripleGroups(p)["date" := Span(|DateText(p)| - 1, |TripleText(p)|)]
  }

  lemma DateMatches(es: seq<string>, p: Parts)
    requires GoodExtensions(es) && WellFormed(es, p)
    ensures Try(DatePart(es), DateText(p)) == Some(DateGroups(p))
  {
    var t := TripleText(p);
    TripleMatches(es, p);
    assert Try(DateEnd(es), t) == Some(TripleGroups(p)["date" := Span(|t|, |t|)]);
    TimesMatch(8, Digit, DateEnd(es), p.date, t);
    assert DateText(p)[1..] == p.date + t;
    GroupAround("date", Times(8, Digit, DateEnd(es)), p.date + t, TripleGroups(p), |t|);
  }

  lemma StageMatches(es: seq<string>, p: Parts)
    requires GoodExtensions(es) && WellFormed(es, p)
    ensures Try(StagePart(es), p.stage + (p.number + DateText(p))) == Try(VersionEnd(es), DateText(p))
    ensures Try(VersionEnd(es), DateText(p)) == Some(DateGroups(p)["version" := Span(|DateText(p)|, |DateText(p)|)])
  {
    var t := DateText(p);
    DateMatches(es, p);
    if p.stage == "" {
      assert p.stage + (p.number + t) == t;
      assert t[0] == '+' && !In('+', Lower);
    } else {
      GreedyPlus(Digit, VersionEnd(es), p.number, t);
      assert p.number[0] in p.number && (p.number + t)[0] == p.number[0];
      GreedyPlus(Lower, Plus(Digit, true, VersionEnd(es)), p.stage, p.number + t);
    }
  }

  lemma StageStart(es: seq<string>, p: Parts)
    requires WellFormed(es, p)
    ensures var t := p.stage + (p.number + DateText(p)); t != "" && !In(t[0], Digit)
  {
    if p.stage == "" {
      assert p.stage + (p.number + DateText(p)) == DateText(p);
    } else {
      assert p.stage[0] in p.stage && (p.stage + (p.number + DateText(p)))[0] == p.stage[0];
    }
  }

  lemma NumberDot(rest: Pattern, a: string, t: string)
    requires IsNumber(a) && Try(rest, t).Some?
    ensures Try(Plus(Digit, true, One(Exactly('.'), rest)), a + ("." + t)) == Try(rest, t)
  {
    assert ("." + t)[1..] == t;
    GreedyPlus(Digit, One(Exactly('.'), rest), a, "." + t);
  }

  lemma CoreMatches(es: seq<string>, p: Parts)
    requires GoodExtensions(es) && WellFormed(es, p)
    ensures Try(CorePart(es), CoreText(p, DateText(p))) == Some(DateGroups(p)["version" := Span(|DateText(p)|, |DateText(p)|)])
  {
    var t := p.stage + (p.number + DateText(p));
    StageMatches(es, p);
    StageStart(es, p);
    GreedyPlus(Digit, StagePart(es), p.patch, t);
    NumberDot(Plus(Digit, true, StagePart(es)), p.minor, p.patch + t);
    NumberDot(Plus(Digit, true, One(Exactly('.'), Plus(Digit, true, StagePart(es)))), p.major, p.minor + ("." + (p.patch + t)));
  }

  function VersionGroups(p: Parts): Groups
    requires |p.words| == 4
  {
    DateGroups(p)["version" := Span(|CoreText(p, DateText(p))|, |DateText(p)|)]
  }

  lemma VersionMatches(es: seq<string>, p: Parts)
    requires GoodExtensions(es) && WellFormed(es, p)
    ensures Try(VersionPart(es), "-" + CoreText(p, DateText(p))) == Some(VersionGroups(p))
  {
    var t := CoreText(p, DateText(p));
    CoreMatches(es, p);
    GroupAround("version", CorePart(es), t, DateGroups(p), |DateText(p)|);
    assert ("-" + t)[1..] == t;
  }

  function FinalGroups(p: Parts): Groups
    requires |p.words| == 4
  {
    VersionGroups(p)["flavor" := Span(|Filename(p)|, |"-" + CoreText(p, DateText(p))|)]
  }

  lemma FlavorMatches(es: seq<string>, p: Parts)
    requires GoodExtensions(es) && WellFormed(es, p)
    ensures Try(BuildPattern(es), Filename(p)) == Some(FinalGroups(p))
  {
    var t := "-" + CoreText(p, DateText(p));
    VersionMatches(es, p);
    LitStep(p.flavor, FlavorEnd(es), t);
    if p.flavor == "pypy" {
      assert Filename(p)[0] == 'p';
      LitMismatch("cpython", FlavorEnd(es), Filename(p));
    }
    GroupAround("flavor", Either(Lit("cpython", FlavorEnd(es)), Lit("pypy", FlavorEnd(es))), Filename(p), VersionGroups(p), |t|);
  }

  // ------------------------------------------------------------------------- the round trip

  lemma CoreSplits(p: Parts, rest: string)
    ensures CoreText(p, rest) == VersionText(p) + rest
  {
  }

  lemma WordsSplit(a: string, b: string, c: string, d: string, rest: string)
    ensures WordsText(a, b, c, d, rest) == WordsText(a, b, c, d, "") + rest
  {
  }

  /** The groups of the printed name, by where they lie. */
  predicate FinalSpans(p: Parts, m: Groups)
    requires |p.words| == 4
  {
    && m.Keys == {"ext", "variant", "triple", "date", "version", "flavor"}
    && m["ext"] == Span(|p.ext|, 0)
    && m["variant"] == Span(|p.variant| + |ExtText(p)|, |ExtText(p)|)
    && m["triple"] == Span(|Triple(p)| + |VariantText(p)|, |VariantText(p)|)
    && m["date"] == Span(|p.date| + |TripleText(p)|, |TripleText(p)|)
    && m["version"] == Span(|VersionText(p)| + |DateText(p)|, |DateText(p)|)
    && m["flavor"] == Span(|Filename(p)|, |"-" + CoreText(p, DateText(p))|)
  }

  lemma FinalGroupsSpan(p: Parts)
    requires |p.words| == 4
    ensures FinalSpans(p, FinalGroups(p))
  {
    WordsSplit(p.words[0], p.words[1], p.words[2], p.words[3], VariantText(p));
    CoreSplits(p, DateText(p));
  }

  lemma FilenameSlices(p: Parts)
    requires |p.words| == 4
    ensures Filename(p) == "" + p.flavor + ("-" + CoreText(p, DateText(p)))
    ensures Filename(p) == (p.flavor + "-") + VersionText(p) + DateText(p)
    ensures Filename(p) == (p.flavor + "-" + VersionText(p) + "+") + p.date + TripleText(p)
    ensures Filename(p) == (p.flavor + "-" + VersionText(p) + "+" + p.date + "-") + Triple(p) + VariantText(p)
    ensures Filename(p) == (p.flavor + "-" + VersionText(p) + "+" + p.date + "-" + Triple(p) + "-") + p.variant + ExtText(p)
    ensures Filename(p) == (p.flavor + "-" + VersionText(p) + "+" + p.date + "-" + Triple(p) + "-" + p.variant + ".") + p.ext + ""
  {
    WordsSplit(p.words[0], p.words[1], p.words[2], p.words[3], VariantText(p));
    CoreSplits(p, DateText(p));
  }

  lemma FinalTexts(p: Parts, f: string, m: Groups)
    requires |p.words| == 4 && f == Filename(p) && FinalSpans(p, m)
    requires forall g :: g in m ==> m[g].end <= m[g].start <= |f|
    ensures var t := Texts(f, m);
      && t["ext"] == p.ext && t["variant"] == p.variant && t["triple"] == Triple(p)
      && t["date"] == p.date && t["version"] == VersionText(p) && t["flavor"] == p.flavor
  {
    FilenameSlices(p);
    var a := p.flavor + "-" + VersionText(p) + "+";
    SliceMiddle(f, "", p.flavor, "-" + CoreText(p, DateText(p)));
    SliceMiddle(f, p.flavor + "-", VersionText(p), DateText(p));
    SliceMiddle(f, a, p.date, TripleText(p));
    SliceMiddle(f, a + p.date + "-", Triple(p), VariantText(p));
    SliceMiddle(f, a + p.date + "-" + Triple(p) + "-", p.variant, ExtText(p));
    SliceMiddle(f, a + p.date + "-" + Triple(p) + "-" + p.variant + ".", p.ext, "");
  }

  lemma RoundTripWith(es: seq<string>, p: Parts)
    requires GoodExtensions(es) && WellFormed(es, p)
    ensures ParseWith(es, Filename(p)) == Some(Expected(p))
  {
    FlavorMatches(es, p);
    FinalGroupsSpan(p);
    MatchTexts(BuildPattern(es), Filename(p), FinalGroups(p));
    FinalTexts(p, Filename(p), FinalGroups(p));
  }

  lemma ListedExtensionsAreGood()
    ensures GoodExtensions(EXTENSIONS)
  {
    ListedExtensionsArePlain();
    forall e, d | e in EXTENSIONS && d in EXTENSIONS ensures !ProperTail("." + d, "." + e) {
      NoExtensionEndsAnother(e, d);
    }
  }

  lemma ListedExtensionsArePlain()
    ensures forall e :: e in EXTENSIONS ==> e != "" && AllIn(e, AlnumDot)
  {
  }

  lemma NoExtensionEndsAnother(e: string, d: string)
    requires e in EXTENSIONS && d in EXTENSIONS
    ensures !ProperTail("." + d, "." + e)
  {
    if |d| < |e| {
      assert ("." + e)[|e| - |d|..][0] == e[|e| - |d| - 1];
      assert ("." + e)[|e| - |d|..][1..] == e[|e| - |d|..];
    }
  }

  /** Printing and parsing a CPython archive name give the parts back, for every name. */
  lemma BuildFilenameRoundTrip(p: Parts)
    requires WellFormed(EXTENSIONS, p)
    ensures ParseBuildFilename(Filename(p)) == Some(Expected(p)) && HasBuildExtension(Filename(p))
  {
    ListedExtensionsAreGood();
    RoundTripWith(EXTENSIONS, p);
    FilenameSlices(p);
    DottedIsListed(p.ext);
    EndsInExtension(p);
  }

  lemma DottedIsListed(e: string)
    requires e in EXTENSIONS
    ensures "." + e in BUILD_EXTENSIONS
  {
    var i :| 0 <= i < |EXTENSIONS| && EXTENSIONS[i] == e;
    assert BUILD_EXTENSIONS[i] == "." + EXTENSIONS[i];
  }

  lemma EndsInExtension(p: Parts)
    requires |p.words| == 4
    ensures HasSuffix(Filename(p), "." + p.ext)
  {
    FilenameSlices(p);
    var before := p.flavor + "-" + VersionText(p) + "+" + p.date + "-" + Triple(p) + "-";
    assert Filename(p) == (before + p.variant) + ("." + p.ext);
  }
}
