/** Node archive filenames (backend/index/node_build.py, lines 37-140). */
module NodeNames {
  import opened Basics
  import opened Regex
  import opened Archives

  datatype NodeFile = NodeFile(filename: string, version: string, platform: string, arch: string, extension: string)

  // --------------------------------------------------------------------------- the pattern

  const EXTENSIONS := ["tar.gz", "tar.xz", "tar.bz2", "zip", "7z", "msi", "pkg", "tar"]

  /** `-(?P<arch>[a-z0-9_]+(?:-[a-z0-9_]+)*)` and the extension. */
  function ArchPart(es: seq<string>): Pattern
    requires es != []
  {
    One(Exactly('-'), Open("arch", Plus(LowerWord, true, Repeat('-', LowerWord, Close("arch", ExtensionPart(es))))))
  }

  function AfterPlatform(es: seq<string>): Pattern
    requires es != []
  {
    Close("platform", Either(ArchPart(es), ExtensionPart(es)))
  }

  /** `(?:-(?P<platform>[a-z0-9]+)(?:-(?P<arch>...))?)?` and the extension. */
  function PlatformPart(es: seq<string>): Pattern
    requires es != []
  {
    Either(One(Exactly('-'), Open("platform", Plus(LowerAlnum, true, AfterPlatform(es)))), ExtensionPart(es))
  }

  function AfterVersion(es: seq<string>): Pattern
    requires es != []
  {
    Close("version", PlatformPart(es))
  }

  const KEYWORDS := ["rc", "beta", "alpha", "nightly"]

  function PrereleaseTail(es: seq<string>): Pattern
    requires es != []
  {
    Many(AlnumDot, true, AfterVersion(es))
  }

  /** `-(?:rc|beta|alpha|nightly)[0-9A-Za-z.]*` */
  function PrereleasePart(es: seq<string>): Pattern
    requires es != []
  {
    One(Exactly('-'), Either(Lit("rc", PrereleaseTail(es)), Either(Lit("beta", PrereleaseTail(es)),
      Either(Lit("alpha", PrereleaseTail(es)), Lit("nightly", PrereleaseTail(es))))))
  }

  function AfterCore(es: seq<string>): Pattern
    requires es != []
  {
    Either(PrereleasePart(es), AfterVersion(es))
  }

  function CorePart(es: seq<string>): Pattern
    requires es != []
  {
    Plus(Digit, true, One(Exactly('.'), Plus(Digit, true, One(Exactly('.'), Plus(Digit, true, AfterCore(es))))))
  }

  /** `_NODE_PATTERN` */
  function NodePattern(es: seq<string>): Pattern
    requires es != []
  {
    Lit("node-v", Open("version", CorePart(es)))
  }

  /** The entry built from a match, for a given list of extensions. */
  function ParseWith(es: seq<string>, f: string): Option<NodeFile>
    requires es != []
  {
    match Match(NodePattern(es), f)
    case None => None
    case Some(m) =>
      var ext := GroupOr(m, "ext", "");
      Some(NodeFile(f, GroupOr(m, "version", ""), GroupOr(m, "platform", Pseudo(ext)), GroupOr(m, "arch", ""), ext))
  }

  /** The pseudo-platform of an archive that names none. */
  function Pseudo(ext: string): string {
    if ext in ["tar.gz", "tar.xz", "tar.bz2", "tar"] then "src" else ext
  }

  /** `_parse_node_filename` */
  function ParseNodeFilename(f: string): Option<NodeFile> {
    ParseWith(EXTENSIONS, f)
  }

  // ------------------------------------------------------------------------------ printing

  /** Final versions have no `pre`; a prerelease is a keyword and a tail. */
  datatype Version = Version(major: string, minor: string, patch: string, pre: Option<Prerelease>)

  datatype Prerelease = Prerelease(keyword: string, tail: string)

  datatype Target = NoTarget | OnPlatform(platform: string) | OnArch(platform: string, arch: string, more: seq<string>)

  datatype Parts = Parts(version: Version, target: Target, ext: string)

  predicate WellFormed(es: seq<string>, p: Parts) {
    && IsNumber(p.version.major) && IsNumber(p.version.minor) && IsNumber(p.version.patch)
    && (p.version.pre.Some? ==> p.version.pre.value.keyword in KEYWORDS && AllIn(p.version.pre.value.tail, AlnumDot))
    && (!p.target.NoTarget? ==> p.target.platform != "" && AllIn(p.target.platform, LowerAlnum))
    && (p.target.OnArch? ==> WordRun(p.target.arch) && forall w :: w in p.target.more ==> WordRun(w))
    && p.ext in es
  }

  predicate WordRun(w: string) {
    w != "" && AllIn(w, LowerWord)
  }

  function MoreText(more: seq<string>): string {
    if more == [] then "" else "-" + (more[0] + MoreText(more[1..]))
  }

  function ArchText(p: Parts): string {
    if p.target.OnArch? then p.target.arch + MoreText(p.target.more) else ""
  }

  function ExtText(p: Parts): string {
    "." + p.ext
  }

  function AfterPlatformText(p: Parts): string {
    if p.target.OnArch? then "-" + (p.target.arch + (MoreText(p.target.more) + ExtText(p))) else ExtText(p)
  }

  function TargetText(p: Parts): string {
    if p.target.NoTarget? then ExtText(p) else "-" + (p.target.platform + AfterPlatformText(p))
  }

  function PrereleaseText(v: Version): string {
    if v.pre.Some? then "-" + (v.pre.value.keyword + v.pre.value.tail) else ""
  }

  function VersionText(v: Version): string {
    v.major + ("." + (v.minor + ("." + (v.patch + PrereleaseText(v)))))
  }

  function Filename(p: Parts): string {
    "node-v" + (VersionText(p.version) + TargetText(p))
  }

  /** What parsing the printed name should give: platform-less archives are named after what they are. */
  function Expected(p: Parts): NodeFile {
    NodeFile(Filename(p), VersionText(p.version),
      if p.target.NoTarget? then Pseudo(p.ext) else p.target.platform,
      ArchText(p), p.ext)
  }

  /** A final version whose platform starts like a prerelease, read by the pattern as one. The
      match only stands when the first arch segment, if any, can pass for a platform. */
  predicate Ambiguous(p: Parts) {
    && p.version.pre.None? && !p.target.NoTarget?
    && (exists k :: k in KEYWORDS && k <= p.target.platform)
    && (p.target.OnArch? ==> '_' !in p.target.arch)
  }

  // ------------------------------------------------------------ platform and architecture

  function TargetGroups(p: Parts): Groups {
    var ext := map["ext" := Span(|p.ext|, 0)];
    match p.target
    case NoTarget => ext
    case OnPlatform(_) => ext["platform" := Span(|TargetText(p)| - 1, |AfterPlatformText(p)|)]
    case OnArch(_, _, _) =>
      ext["arch" := Span(|AfterPlatformText(p)| - 1, |ExtText(p)|)]["platform" := Span(|TargetText(p)| - 1, |AfterPlatformText(p)|)]
  }

  lemma RepeatOne(rest: Pattern, w: string, tail: string)
    requires WordRun(w) && tail != "" && tail[0] in "-." && Try(Repeat('-', LowerWord, rest), tail).Some?
    ensures Try(Repeat('-', LowerWord, rest), "-" + (w + tail)) == Try(Repeat('-', LowerWord, rest), tail)
  {
    assert ("-" + (w + tail))[1..] == w + tail;
    GreedyPlus(LowerWord, Repeat('-', LowerWord, rest), w, tail);
  }

  lemma MoreTextStep(more: seq<string>, t: string)
    requires t != "" && t[0] == '.'
    ensures (MoreText(more) + t)[0] in "-."
    ensures more != [] ==> MoreText(more) + t == "-" + (more[0] + (MoreText(more[1..]) + t))
  {
  }

  lemma {:induction false} RepeatRun(rest: Pattern, more: seq<string>, t: string)
    requires forall w :: w in more ==> WordRun(w)
    requires t != "" && t[0] == '.' && Try(rest, t).Some?
    ensures Try(Repeat('-', LowerWord, rest), MoreText(more) + t) == Try(rest, t)
    decreases |more|
  {
    if more == [] {
      assert MoreText(more) + t == t;
    } else {
      RepeatRun(rest, more[1..], t);
      MoreTextStep(more, t);
      MoreTextStep(more[1..], t);
      RepeatOne(rest, more[0], MoreText(more[1..]) + t);
    }
  }

  lemma ExtensionGroups(es: seq<string>, p: Parts)
    requires GoodExtensions(es) && WellFormed(es, p)
    ensures Try(ExtensionPart(es), ExtText(p)) == Some(map["ext" := Span(|p.ext|, 0)])
  {
    ExtensionPartMatches(es, p.ext);
  }

  lemma ArchGroups(es: seq<string>, p: Parts)
    requires GoodExtensions(es) && WellFormed(es, p) && p.target.OnArch?
    ensures Try(ArchPart(es), AfterPlatformText(p))
         == Some(map["ext" := Span(|p.ext|, 0), "arch" := Span(|AfterPlatformText(p)| - 1, |ExtText(p)|)])
  {
    var close := Close("arch", ExtensionPart(es));
    var e := ExtText(p);
    ExtensionGroups(es, p);
    var m: Groups := map["ext" := Span(|p.ext|, 0), "arch" := Span(|e|, |e|)];
    assert Try(close, e) == Some(m);
    var tail := MoreText(p.target.more) + e;
    RepeatRun(close, p.target.more, e);
    assert tail[0] == '-' || tail[0] == '.';
    assert Try(Repeat('-', LowerWord, close), tail) == Some(m);
    GreedyPlus(LowerWord, Repeat('-', LowerWord, close), p.target.arch, tail);
    assert AfterPlatformText(p)[1..] == p.target.arch + tail;
    assert m["arch" := Span(|AfterPlatformText(p)| - 1, |e|)]
        == map["ext" := Span(|p.ext|, 0), "arch" := Span(|AfterPlatformText(p)| - 1, |e|)];
  }

  lemma TargetMatches(es: seq<string>, p: Parts)
    requires GoodExtensions(es) && WellFormed(es, p)
    ensures Try(PlatformPart(es), TargetText(p)) == Some(TargetGroups(p))
  {
    ExtensionGroups(es, p);
    if p.target.NoTarget? {
      assert Try(PlatformPart(es), TargetText(p)) == Try(ExtensionPart(es), ExtText(p));
    } else {
      PlatformMatches(es, p);
    }
  }

  function AfterPlatformGroups(p: Parts): Groups {
    var t := AfterPlatformText(p);
    if p.target.OnArch? then
      map["ext" := Span(|p.ext|, 0), "arch" := Span(|t| - 1, |ExtText(p)|), "platform" := Span(|t|, |t|)]
    else map["ext" := Span(|p.ext|, 0), "platform" := Span(|t|, |t|)]
  }

  lemma AfterPlatformMatches(es: seq<string>, p: Parts)
    requires GoodExtensions(es) && WellFormed(es, p) && !p.target.NoTarget?
    ensures Try(AfterPlatform(es), AfterPlatformText(p)) == Some(AfterPlatformGroups(p))
  {
    var t := AfterPlatformText(p);
    if p.target.OnArch? {
      ArchGroups(es, p);
      var m: Groups := map["ext" := Span(|p.ext|, 0), "arch" := Span(|t| - 1, |ExtText(p)|)];
      assert m["platform" := Span(|t|, |t|)] == AfterPlatformGroups(p);
    } else {
      ExtensionGroups(es, p);
      WrongStart(ArchPart(es), '-', t);
      var m: Groups := map["ext" := Span(|p.ext|, 0)];
      assert m["platform" := Span(|t|, |t|)] == AfterPlatformGroups(p);
    }
  }

  lemma PlatformMatches(es: seq<string>, p: Parts)
    requires GoodExtensions(es) && WellFormed(es, p) && !p.target.NoTarget?
    ensures Try(PlatformPart(es), TargetText(p)) == Some(TargetGroups(p))
  {
    var t := AfterPlatformText(p);
    AfterPlatformMatches(es, p);
    GreedyPlus(LowerAlnum, AfterPlatform(es), p.target.platform, t);
    assert TargetText(p)[1..] == p.target.platform + t;
    assert AfterPlatformGroups(p)["platform" := Span(|TargetText(p)| - 1, |t|)] == TargetGroups(p);
    var named := Open("platform", Plus(LowerAlnum, true, AfterPlatform(es)));
    assert Try(named, p.target.platform + t) == Some(TargetGroups(p));
    assert Try(One(Exactly('-'), named), TargetText(p)) == Some(TargetGroups(p));
  }

  // ------------------------------------------------------------------------- the version

  /** The groups once the version has ended in front of the target. */
  function EndGroups(p: Parts): Groups {
    TargetGroups(p)["version" := Span(|TargetText(p)|, |TargetText(p)|)]
  }

  lemma VersionEnds(es: seq<string>, p: Parts)
    requires GoodExtensions(es) && WellFormed(es, p)
    ensures Try(AfterVersion(es), TargetText(p)) == Some(EndGroups(p))
  {
    TargetMatches(es, p);
  }

  lemma TargetStart(p: Parts)
    ensures TargetText(p) != "" && TargetText(p)[0] in "-."
    ensures AfterPlatformText(p) != "" && AfterPlatformText(p)[0] in "-."
  {
  }

  /** What follows a version or a platform starts with a dash or a dot. */
  lemma NeedsDashOrDot(es: seq<string>, s: string)
    requires es != [] && (s == "" || s[0] !in "-.")
    ensures Try(AfterVersion(es), s).None? && Try(AfterPlatform(es), s).None?
  {
    assert s == "" || (s[0] != '-' && s[0] != '.');
    WrongStart(ArchPart(es), '-', s);
    WrongStart(ExtensionPart(es), '.', s);
    assert Try(PlatformPart(es), s).None?;
  }

  /** Inside an extension no second extension begins. */
  lemma NoTailMatches(es: seq<string>, e: string, n: nat)
    requires GoodExtensions(es) && e in es && 0 < n <= |e| + 1
    ensures Try(AfterVersion(es), ("." + e)[n..]).None?
  {
    var t := ("." + e)[n..];
    if t == "" || t[0] !in "-." {
      NeedsDashOrDot(es, t);
    } else {
      assert t[0] == ("." + e)[n] == e[n - 1];
      assert e[n - 1] in e;
      assert t[0] == '.' by {
        assert !In('-', AlnumDot);
      }
      if Try(ExtensionPart(es), t).Some? {
        var d := ExtensionPartOnly(es, t);
        InsideExtension(es, e, n, d);
      }
      assert Try(PlatformPart(es), t).None?;
    }
  }

  lemma PrereleaseTailMatches(es: seq<string>, x: string, p: Parts)
    requires GoodExtensions(es) && WellFormed(es, p) && AllIn(x, AlnumDot)
    ensures Try(PrereleaseTail(es), x + TargetText(p)) == Some(EndGroups(p))
  {
    VersionEnds(es, p);
    if p.target.NoTarget? {
      forall n | 0 < n <= |ExtText(p)| ensures Try(AfterVersion(es), ExtText(p)[n..]).None? {
        NoTailMatches(es, p.ext, n);
      }
      GreedyBacktrack(AlnumDot, AfterVersion(es), x, ExtText(p));
    } else {
      GreedyRun(AlnumDot, AfterVersion(es), x, TargetText(p));
    }
  }

  lemma Alternatives(es: seq<string>, t: string)
    requires es != []
    ensures Try(PrereleasePart(es), "-" + t)
         == OrElse(Try(Lit("rc", PrereleaseTail(es)), t), OrElse(Try(Lit("beta", PrereleaseTail(es)), t),
              OrElse(Try(Lit("alpha", PrereleaseTail(es)), t), Try(Lit("nightly", PrereleaseTail(es)), t))))
  {
    assert ("-" + t)[1..] == t;
    var rest := PrereleaseTail(es);
    var last := Either(Lit("alpha", rest), Lit("nightly", rest));
    assert Try(last, t) == OrElse(Try(Lit("alpha", rest), t), Try(Lit("nightly", rest), t));
    assert Try(Either(Lit("beta", rest), last), t) == OrElse(Try(Lit("beta", rest), t), Try(last, t));
  }

  lemma OtherKeyword(rest: Pattern, j: string, k: string, s: string)
    requires j != "" && k != "" && j[0] != k[0]
    ensures Try(Lit(j, rest), k + s).None?
  {
    assert (k + s)[0] == k[0];
    LitMismatch(j, rest, k + s);
  }

  lemma KeywordMatches(es: seq<string>, k: string, s: string)
    requires es != [] && k in KEYWORDS
    ensures Try(PrereleasePart(es), "-" + (k + s)) == Try(PrereleaseTail(es), s)
  {
    var rest := PrereleaseTail(es);
    Alternatives(es, k + s);
    LitStep(k, rest, s);
    if k != "rc" {
      OtherKeyword(rest, "rc", k, s);
    }
    if k != "beta" {
      OtherKeyword(rest, "beta", k, s);
    }
    if k != "alpha" {
      OtherKeyword(rest, "alpha", k, s);
    }
    if k != "nightly" {
      OtherKeyword(rest, "nightly", k, s);
    }
  }

  lemma NoKeyword(es: seq<string>, t: string)
    requires es != [] && forall k :: k in KEYWORDS ==> !(k <= t)
    ensures Try(PrereleasePart(es), "-" + t).None?
  {
    Alternatives(es, t);
    assert "rc" in KEYWORDS && "beta" in KEYWORDS && "alpha" in KEYWORDS && "nightly" in KEYWORDS;
    LitMismatch("rc", PrereleaseTail(es), t);
    LitMismatch("beta", PrereleaseTail(es), t);
    LitMismatch("alpha", PrereleaseTail(es), t);
    LitMismatch("nightly", PrereleaseTail(es), t);
  }

  // ------------------------------------------------------------------------ the whole name

  function CoreText(v: Version, t: string): string {
    v.major + ("." + (v.minor + ("." + (v.patch + t))))
  }

  lemma CoreMatches(es: seq<string>, v: Version, t: string)
    requires es != [] && IsNumber(v.major) && IsNumber(v.minor) && IsNumber(v.patch)
    requires t != "" && !IsDigit(t[0]) && Try(AfterCore(es), t).Some?
    ensures Try(CorePart(es), CoreText(v, t)) == Try(AfterCore(es), t)
  {
    var third := Plus(Digit, true, AfterCore(es));
    GreedyPlus(Digit, AfterCore(es), v.patch, t);
    var t2 := "." + (v.patch + t);
    assert t2[1..] == v.patch + t;
    assert Try(One(Exactly('.'), third), t2) == Try(third, v.patch + t);
    GreedyPlus(Digit, One(Exactly('.'), third), v.minor, t2);
    var second := Plus(Digit, true, One(Exactly('.'), third));
    var t1 := "." + (v.minor + t2);
    assert t1[1..] == v.minor + t2;
    assert Try(One(Exactly('.'), second), t1) == Try(second, v.minor + t2);
    GreedyPlus(Digit, One(Exactly('.'), second), v.major, t1);
  }

  lemma NodeMatches(es: seq<string>, v: Version, t: string, m: Groups)
    requires es != [] && IsNumber(v.major) && IsNumber(v.minor) && IsNumber(v.patch)
    requires t != "" && !IsDigit(t[0]) && Try(AfterCore(es), t) == Some(m) && "version" in m
    ensures Try(NodePattern(es), "node-v" + CoreText(v, t)) == Some(m["version" := Span(|CoreText(v, t)|, m["version"].end)])
  {
    CoreMatches(es, v, t);
    OpenAround("version", CorePart(es), CoreText(v, t), m);
    AfterPrefix(es, CoreText(v, t));
  }

  lemma AfterPrefix(es: seq<string>, s: string)
    requires es != []
    ensures Try(NodePattern(es), "node-v" + s) == Try(Open("version", CorePart(es)), s)
  {
    LitStep("node-v", Open("version", CorePart(es)), s);
  }

  lemma FilenameIsCore(p: Parts)
    ensures Filename(p) == "node-v" + CoreText(p.version, PrereleaseText(p.version) + TargetText(p))
    ensures (PrereleaseText(p.version) + TargetText(p)) != "" && !IsDigit((PrereleaseText(p.version) + TargetText(p))[0])
  {
    var v, t := p.version, TargetText(p);
    TargetStart(p);
    assert v.patch + PrereleaseText(v) + t == v.patch + (PrereleaseText(v) + t);
    assert VersionText(v) + t == CoreText(v, PrereleaseText(v) + t);
  }

  predicate ReadsAsKeyword(platform: string) {
    exists k :: k in KEYWORDS && k <= platform
  }

  lemma KeywordInPlatform(p: Parts, k: string)
    requires !p.target.NoTarget? && k in KEYWORDS && k <= p.target.platform + AfterPlatformText(p)
    ensures k <= p.target.platform
  {
    TargetStart(p);
    var n := |p.target.platform|;
    if n < |k| {
      assert k[n] == (p.target.platform + AfterPlatformText(p))[n] == AfterPlatformText(p)[0];
      assert k[n] in k;
      KeywordsAreLetters(k);
    }
  }

  lemma KeywordsAreLetters(k: string)
    requires k in KEYWORDS
    ensures k != "" && '-' !in k && '.' !in k
  {
  }

  /** With no keyword in sight, or a prerelease spelled out, the version ends where it should. */
  lemma NoKeywordAhead(es: seq<string>, p: Parts)
    requires GoodExtensions(es) && WellFormed(es, p)
    requires !p.target.NoTarget? && !ReadsAsKeyword(p.target.platform)
    ensures Try(PrereleasePart(es), TargetText(p)).None?
  {
    forall k | k in KEYWORDS ensures !(k <= p.target.platform + AfterPlatformText(p)) {
      if k <= p.target.platform + AfterPlatformText(p) {
        KeywordInPlatform(p, k);
      }
    }
    NoKeyword(es, p.target.platform + AfterPlatformText(p));
  }

  lemma CoreEndsRight(es: seq<string>, p: Parts)
    requires GoodExtensions(es) && WellFormed(es, p)
    requires p.version.pre.None? && !p.target.NoTarget? ==> !ReadsAsKeyword(p.target.platform)
    ensures Try(AfterCore(es), PrereleaseText(p.version) + TargetText(p)) == Some(EndGroups(p))
  {
    var t := TargetText(p);
    if p.version.pre.Some? {
      var pre := p.version.pre.value;
      assert PrereleaseText(p.version) + t == "-" + (pre.keyword + (pre.tail + t));
      KeywordMatches(es, pre.keyword, pre.tail + t);
      PrereleaseTailMatches(es, pre.tail, p);
    } else {
      assert PrereleaseText(p.version) + t == t;
      VersionEnds(es, p);
      if p.target.NoTarget? {
        WrongStart(PrereleasePart(es), '-', t);
      } else {
        NoKeywordAhead(es, p);
      }
    }
  }

  /** What the pattern takes for the target once it has read the platform as a prerelease. */
  function Misread(p: Parts): Parts
    requires !p.target.NoTarget?
  {
    p.(target := if p.target.OnPlatform? then NoTarget
                 else if p.target.more == [] then OnPlatform(p.target.arch)
                 else OnArch(p.target.arch, p.target.more[0], p.target.more[1..]))
  }

  lemma MisreadText(p: Parts)
    requires !p.target.NoTarget?
    ensures TargetText(Misread(p)) == AfterPlatformText(p)
  {
    if p.target.OnArch? && p.target.more != [] {
      var more, e := p.target.more, ExtText(p);
      assert MoreText(more) + e == "-" + (more[0] + (MoreText(more[1..]) + e));
    }
  }

  lemma AmbiguousEndsLate(es: seq<string>, p: Parts)
    requires GoodExtensions(es) && WellFormed(es, p) && Ambiguous(p)
    ensures Try(AfterCore(es), TargetText(p)) == Some(EndGroups(Misread(p)))
  {
    var k :| k in KEYWORDS && k <= p.target.platform;
    var y := KeywordSplit(es, p, k);
    KeywordMatches(es, k, y + TargetText(Misread(p)));
    MisreadWellFormed(es, p);
    PrereleaseTailMatches(es, y, Misread(p));
  }

  lemma KeywordSplit(es: seq<string>, p: Parts, k: string) returns (y: string)
    requires WellFormed(es, p) && !p.target.NoTarget? && k <= p.target.platform
    ensures AllIn(y, AlnumDot) && TargetText(p) == "-" + (k + (y + TargetText(Misread(p))))
    ensures |TargetText(Misread(p))| < |TargetText(p)|
  {
    MisreadText(p);
    y := p.target.platform[|k|..];
    assert p.target.platform == k + y;
    assert forall c :: c in y ==> c in p.target.platform;
  }

  lemma MisreadWellFormed(es: seq<string>, p: Parts)
    requires WellFormed(es, p) && Ambiguous(p)
    ensures WellFormed(es, Misread(p))
  {
    if p.target.OnArch? {
      forall c | c in p.target.arch ensures In(c, LowerAlnum) {
        assert In(c, LowerWord);
      }
    }
  }

  /** The part of a word run before its first underscore. */
  lemma {:induction false} FirstUnderscore(w: string) returns (b: string, c: string)
    requires '_' in w && AllIn(w, LowerWord)
    ensures w == b + "_" + c && AllIn(b, LowerAlnum)
    decreases |w|
  {
    if w[0] == '_' {
      b, c := "", w[1..];
    } else {
      assert w[0] in w && forall x :: x in w[1..] ==> x in w;
      assert '_' in w[1..] by {
        assert w == [w[0]] + w[1..];
      }
      b, c := FirstUnderscore(w[1..]);
      b := [w[0]] + b;
    }
  }

  /** A word with an underscore cannot stand where a platform should. */
  lemma UnderscoreIsNoPlatform(es: seq<string>, w: string, t: string)
    requires GoodExtensions(es) && '_' in w && AllIn(w, LowerWord)
    ensures Try(AfterVersion(es), "-" + (w + t)).None?
  {
    var b, c := FirstUnderscore(w);
    var u := "_" + (c + t);
    assert w + t == b + u;
    assert ("-" + (w + t))[1..] == b + u;
    WrongStart(ExtensionPart(es), '.', "-" + (w + t));
    if b == "" {
      assert b + u == u && !In('_', LowerAlnum);
    } else {
      var rest := b[1..];
      assert (b + u)[1..] == rest + u;
      assert forall x :: x in rest ==> x in b;
      forall n | 0 <= n <= |rest| ensures Try(AfterPlatform(es), rest[n..] + u).None? {
        WordStart(es, rest, n, u);
      }
      GreedyRunNone(LowerAlnum, AfterPlatform(es), rest, u);
    }
    var plus := Plus(LowerAlnum, true, AfterPlatform(es));
    assert Try(plus, b + u).None?;
    assert Try(One(Exactly('-'), Open("platform", plus)), "-" + (w + t)).None?;
    assert Try(PlatformPart(es), "-" + (w + t)).None?;
  }

  lemma WordStart(es: seq<string>, a: string, n: nat, u: string)
    requires es != [] && AllIn(a, LowerWord) && n <= |a| && u != "" && u[0] == '_'
    ensures Try(AfterPlatform(es), a[n..] + u).None?
  {
    var s := a[n..] + u;
    assert s[0] == if n < |a| then a[n] else '_';
    if n < |a| {
      assert a[n] in a;
    }
    NeedsDashOrDot(es, s);
  }

  lemma PrereleaseTailFails(es: seq<string>, p: Parts, y: string)
    requires GoodExtensions(es) && WellFormed(es, p) && p.target.OnArch? && '_' in p.target.arch
    requires AllIn(y, LowerAlnum)
    ensures Try(PrereleaseTail(es), y + AfterPlatformText(p)).None?
  {
    var u := AfterPlatformText(p);
    forall n | 0 <= n <= |y| ensures Try(AfterVersion(es), y[n..] + u).None? {
      if n == |y| {
        assert y[n..] + u == u;
        UnderscoreIsNoPlatform(es, p.target.arch, MoreText(p.target.more) + ExtText(p));
      } else {
        assert (y[n..] + u)[0] == y[n] && y[n] in y;
        NeedsDashOrDot(es, y[n..] + u);
      }
    }
    GreedyRunNone(AlnumDot, AfterVersion(es), y, u);
  }

  lemma SplitAtKeyword(p: Parts, k: string, y: string)
    requires !p.target.NoTarget? && p.target.platform == k + y
    ensures TargetText(p) == "-" + (k + (y + AfterPlatformText(p)))
  {
    assert k + y + AfterPlatformText(p) == k + (y + AfterPlatformText(p));
  }

  lemma PrereleaseFails(es: seq<string>, p: Parts, k: string)
    requires GoodExtensions(es) && WellFormed(es, p)
    requires p.target.OnArch? && '_' in p.target.arch && k in KEYWORDS && k <= p.target.platform
    ensures Try(PrereleasePart(es), TargetText(p)).None?
  {
    var y := p.target.platform[|k|..];
    SplitAtKeyword(p, k, y);
    assert forall c :: c in y ==> c in p.target.platform;
    PrereleaseTailFails(es, p, y);
    KeywordMatches(es, k, y + AfterPlatformText(p));
  }

  /** A platform that reads as a prerelease but whose arch cannot be a platform is recovered. */
  lemma UnderscoreEndsRight(es: seq<string>, p: Parts)
    requires GoodExtensions(es) && WellFormed(es, p) && p.version.pre.None?
    requires p.target.OnArch? && '_' in p.target.arch && ReadsAsKeyword(p.target.platform)
    ensures Try(AfterCore(es), TargetText(p)) == Some(EndGroups(p))
  {
    var k :| k in KEYWORDS && k <= p.target.platform;
    PrereleaseFails(es, p, k);
    VersionEnds(es, p);
  }

  lemma FilenameSlices(p: Parts)
    ensures Filename(p) == "node-v" + VersionText(p.version) + TargetText(p)
    ensures Filename(p) == ("node-v" + VersionText(p.version) + TargetText(p)[..|TargetText(p)| - |p.ext|]) + p.ext + ""
    ensures !p.target.NoTarget? ==> Filename(p) == ("node-v" + VersionText(p.version) + "-") + p.target.platform + AfterPlatformText(p)
    ensures p.target.OnArch? ==>
      Filename(p) == ("node-v" + VersionText(p.version) + "-" + p.target.platform + "-") + ArchText(p) + ExtText(p)
  {
    TargetEndsInExt(p);
    var t := TargetText(p);
    assert t[..|t| - |p.ext|] + p.ext == t;
    if p.target.OnArch? {
      assert p.target.arch + (MoreText(p.target.more) + ExtText(p)) == ArchText(p) + ExtText(p);
    }
  }

  lemma TargetEndsInExt(p: Parts)
    ensures HasSuffix(TargetText(p), p.ext)
  {
    var e := ExtText(p);
    SuffixAfter(".", p.ext, p.ext);
    if !p.target.NoTarget? {
      if p.target.OnArch? {
        SuffixAfter(MoreText(p.target.more), e, p.ext);
        SuffixAfter(p.target.arch, MoreText(p.target.more) + e, p.ext);
        SuffixAfter("-", p.target.arch + (MoreText(p.target.more) + e), p.ext);
      }
      SuffixAfter(p.target.platform, AfterPlatformText(p), p.ext);
      SuffixAfter("-", p.target.platform + AfterPlatformText(p), p.ext);
    }
  }

  lemma SuffixAfter(before: string, s: string, e: string)
    requires HasSuffix(s, e)
    ensures HasSuffix(before + s, e)
  {
    assert (before + s)[|before + s| - |e|..] == s[|s| - |e|..];
  }

  function FinalGroups(p: Parts): Groups {
    EndGroups(p)["version" := Span(|VersionText(p.version) + TargetText(p)|, |TargetText(p)|)]
  }

  lemma FinalMatch(es: seq<string>, p: Parts)
    requires GoodExtensions(es) && WellFormed(es, p)
    requires Try(AfterCore(es), PrereleaseText(p.version) + TargetText(p)) == Some(EndGroups(p))
    ensures Try(NodePattern(es), Filename(p)) == Some(FinalGroups(p))
  {
    var t := PrereleaseText(p.version) + TargetText(p);
    FilenameIsCore(p);
    NodeMatches(es, p.version, t, EndGroups(p));
    assert "node-v" + (VersionText(p.version) + TargetText(p)) == "node-v" + CoreText(p.version, t);
    assert |VersionText(p.version) + TargetText(p)| == |CoreText(p.version, t)|;
  }

  /** The groups of the printed name, by where they lie. */
  predicate FinalSpans(p: Parts, m: Groups) {
    && "ext" in m && m["ext"] == Span(|p.ext|, 0)
    && "version" in m && m["version"] == Span(|VersionText(p.version) + TargetText(p)|, |TargetText(p)|)
    && ("platform" in m <==> !p.target.NoTarget?)
    && (!p.target.NoTarget? ==> m["platform"] == Span(|p.target.platform + AfterPlatformText(p)|, |AfterPlatformText(p)|))
    && ("arch" in m <==> p.target.OnArch?)
    && (p.target.OnArch? ==> m["arch"] == Span(|ArchText(p) + ExtText(p)|, |ExtText(p)|))
  }

  lemma FinalGroupsSpan(p: Parts)
    ensures FinalSpans(p, FinalGroups(p))
  {
    if p.target.OnArch? {
      assert ArchText(p) + ExtText(p) == p.target.arch + (MoreText(p.target.more) + ExtText(p));
    }
  }

  lemma FinalTexts(p: Parts, f: string, m: Groups)
    requires f == Filename(p) && FinalSpans(p, m)
    requires forall g :: g in m ==> m[g].end <= m[g].start <= |f|
    ensures Texts(f, m)["ext"] == p.ext
    ensures Texts(f, m)["version"] == VersionText(p.version)
    ensures !p.target.NoTarget? ==> Texts(f, m)["platform"] == p.target.platform
    ensures p.target.OnArch? ==> Texts(f, m)["arch"] == ArchText(p)
  {
    FilenameSlices(p);
    SliceMiddle(f, "node-v", VersionText(p.version), TargetText(p));
    SliceMiddle(f, "node-v" + VersionText(p.version) + TargetText(p)[..|TargetText(p)| - |p.ext|], p.ext, "");
    if !p.target.NoTarget? {
      SliceMiddle(f, "node-v" + VersionText(p.version) + "-", p.target.platform, AfterPlatformText(p));
    }
    if p.target.OnArch? {
      SliceMiddle(f, "node-v" + VersionText(p.version) + "-" + p.target.platform + "-", ArchText(p), ExtText(p));
    }
  }

  /** The printed name is read back exactly. */
  lemma ReadBack(es: seq<string>, p: Parts)
    requires GoodExtensions(es) && WellFormed(es, p)
    requires Try(AfterCore(es), PrereleaseText(p.version) + TargetText(p)) == Some(EndGroups(p))
    ensures ParseWith(es, Filename(p)) == Some(Expected(p))
  {
    FinalMatch(es, p);
    FinalGroupsSpan(p);
    MatchTexts(NodePattern(es), Filename(p), FinalGroups(p));
    FinalTexts(p, Filename(p), FinalGroups(p));
    assert p.ext != "" && VersionText(p.version) != "";
  }

  lemma FinalCore(p: Parts)
    requires p.version.pre.None?
    ensures Filename(p) == "node-v" + CoreText(p.version, TargetText(p))
    ensures |CoreText(p.version, TargetText(p))| == |VersionText(p.version)| + |TargetText(p)|
  {
    FilenameIsCore(p);
    assert PrereleaseText(p.version) + TargetText(p) == TargetText(p);
  }

  lemma MisreadMatch(es: seq<string>, p: Parts, q: Parts, t: string)
    requires GoodExtensions(es) && WellFormed(es, p) && Ambiguous(p) && q == Misread(p) && t == TargetText(p)
    ensures Try(NodePattern(es), "node-v" + CoreText(p.version, t)) ==
              Some(EndGroups(q)["version" := Span(|CoreText(p.version, t)|, |TargetText(q)|)])
  {
    AmbiguousEndsLate(es, p);
    TargetStart(p);
    NodeMatches(es, p.version, t, EndGroups(q));
  }

  lemma VersionOfMatch(es: seq<string>, f: string, m: Groups)
    requires es != [] && Try(NodePattern(es), f) == Some(m) && "version" in m && m["version"].end < m["version"].start
    ensures ParseWith(es, f).Some? && |ParseWith(es, f).value.version| == m["version"].start - m["version"].end
  {
    MatchTexts(NodePattern(es), f, m);
  }

  lemma MisreadIsLonger(es: seq<string>, p: Parts)
    requires GoodExtensions(es) && WellFormed(es, p) && Ambiguous(p)
    ensures ParseWith(es, Filename(p)).Some? && ParseWith(es, Filename(p)).value.version != VersionText(p.version)
  {
    var q, t := Misread(p), TargetText(p);
    var k :| k in KEYWORDS && k <= p.target.platform;
    var y := KeywordSplit(es, p, k);
    MisreadMatch(es, p, q, t);
    FinalCore(p);
    VersionOfMatch(es, Filename(p), EndGroups(q)["version" := Span(|CoreText(p.version, t)|, |TargetText(q)|)]);
  }

  /** Printing and parsing a Node archive name give the parts back exactly when the name is not
      a final version whose platform can be read as a prerelease. */
  lemma RoundTripWith(es: seq<string>, p: Parts)
    requires GoodExtensions(es) && WellFormed(es, p)
    ensures ParseWith(es, Filename(p)) == Some(Expected(p)) <==> !Ambiguous(p)
  {
    if Ambiguous(p) {
      MisreadIsLonger(es, p);
    } else {
      if p.version.pre.None? && !p.target.NoTarget? && ReadsAsKeyword(p.target.platform) {
        UnderscoreEndsRight(es, p);
        assert PrereleaseText(p.version) + TargetText(p) == TargetText(p);
      } else {
        CoreEndsRight(es, p);
      }
      ReadBack(es, p);
    }
  }

  lemma ListedExtensionsArePlain()
    ensures forall e :: e in EXTENSIONS ==> e != "" && AllIn(e, AlnumDot)
  {
  }

  lemma NoExtensionEndsAnother(e: string, d: string)
    requires e in EXTENSIONS && d in EXTENSIONS
    ensures !ProperTail("." + d, "." + e)
  {
    if |d| < |e| {
      assert ("." + e)[|e| - |d|..][0] == e[|e| - |d| - 1];
      assert ("." + e)[|e| - |d|..][1..] == e[|e| - |d|..];
    }
  }

  lemma ListedExtensionsAreGood()
    ensures GoodExtensions(EXTENSIONS)
  {
    ListedExtensionsArePlain();
    forall e, d | e in EXTENSIONS && d in EXTENSIONS ensures !ProperTail("." + d, "." + e) {
      NoExtensionEndsAnother(e, d);
    }
  }

  lemma NodeFilenameRoundTrip(p: Parts)
    requires WellFormed(EXTENSIONS, p)
    ensures ParseNodeFilename(Filename(p)) == Some(Expected(p)) <==> !Ambiguous(p)
  {
    ListedExtensionsAreGood();
    RoundTripWith(EXTENSIONS, p);
  }

  /** Read back exactly or not, every well-formed name is accepted. */
  lemma PrintedNamesAreAccepted(p: Parts)
    requires WellFormed(EXTENSIONS, p)
    ensures "node-v" <= Filename(p) && ParseNodeFilename(Filename(p)).Some?
  {
    ListedExtensionsAreGood();
    RoundTripWith(EXTENSIONS, p);
    if Ambiguous(p) {
      MisreadIsLonger(EXTENSIONS, p);
    }
  }

  /** Version 20.11.0 for a platform called `rc` is read back as a release candidate. */
  lemma ReleaseCandidatePlatformIsMisread()
    ensures var p := Parts(Version("20", "11", "0", None), OnPlatform("rc"), "zip");
      WellFormed(EXTENSIONS, p) && ParseNodeFilename(Filename(p)) != Some(Expected(p))
  {
    RcIsAmbiguous();
    AmbiguousIsMisread(Parts(Version("20", "11", "0", None), OnPlatform("rc"), "zip"));
  }

  lemma AmbiguousIsMisread(p: Parts)
    requires WellFormed(EXTENSIONS, p) && Ambiguous(p)
    ensures ParseNodeFilename(Filename(p)) != Some(Expected(p))
  {
    NodeFilenameRoundTrip(p);
  }

  lemma RcIsAmbiguous()
    ensures var p := Parts(Version("20", "11", "0", None), OnPlatform("rc"), "zip"); WellFormed(EXTENSIONS, p) && Ambiguous(p)
  {
    assert EXTENSIONS[3] == "zip" && KEYWORDS[0] == "rc";
    assert "rc" in KEYWORDS && "rc" <= "rc";
  }

  // ------------------------------------------------------------------------------- tokens

  /** `_EXT_TOKEN`; "tar" itself has no entry. */
  function ExtToken(ext: string): Option<string> {
    if ext in ["tar.gz", "tar.xz", "tar.bz2"] then Some("tar")
    else if ext in ["zip", "7z", "msi", "pkg"] then Some(ext)
    else None
  }

  /** `file_token` */
  function FileToken(bf: NodeFile): string {
    if bf.platform in ["headers", "src", "pkg"] then bf.platform
    else
      var platform := if bf.platform == "darwin" then "osx" else bf.platform;
      var token := if bf.arch != "" then platform + "-" + bf.arch else platform;
      if bf.platform in ["darwin", "win"] && ExtToken(bf.extension).Some? then token + "-" + ExtToken(bf.extension).value
      else token
  }

  /** How Node's own index spells the format of an archive. */
  predicate FormatToken(ext: string, token: string) {
    || (ext in ["tar.gz", "tar.xz", "tar.bz2"] && token == "-tar")
    || (ext == "zip" && token == "-zip") || (ext == "7z" && token == "-7z")
    || (ext == "msi" && token == "-msi") || (ext == "pkg" && token == "-pkg")
    || (ext == "tar" && token == "")
  }

  lemma FormatOf(ext: string, token: string)
    requires FormatToken(ext, token)
    ensures token == if ExtToken(ext).Some? then "-" + ExtToken(ext).value else ""
  {
  }

  predicate TokenSpells(platform: string, arch: string, format: string, token: string) {
    && (platform == "linux" ==> token == "linux" + arch)
    && (platform == "darwin" ==> token == "osx" + arch + format)
    && (platform == "win" ==> token == "win" + arch + format)
    && (platform in ["headers", "src", "pkg"] ==> token == platform)
    && (platform !in ["darwin", "win", "headers", "src", "pkg"] ==> token == platform + arch)
  }

  lemma PlainToken(bf: NodeFile, platform: string, arch: string)
    requires platform == bf.platform && platform !in ["darwin", "win", "headers", "src", "pkg"]
    requires arch == if bf.arch == "" then "" else "-" + bf.arch
    ensures FileToken(bf) == platform + arch
  {
    assert platform + "" == platform && (platform + "-") + bf.arch == platform + ("-" + bf.arch);
  }

  lemma FormattedToken(bf: NodeFile, name: string, arch: string, format: string)
    requires (bf.platform == "darwin" && name == "osx") || (bf.platform == "win" && name == "win")
    requires arch == if bf.arch == "" then "" else "-" + bf.arch
    requires format == if ExtToken(bf.extension).Some? then "-" + ExtToken(bf.extension).value else ""
    ensures FileToken(bf) == name + arch + format
  {
    var token := name + arch;
    assert name + "" == name && (name + "-") + bf.arch == name + ("-" + bf.arch) && token + "" == token;
    if ExtToken(bf.extension).Some? {
      var e := ExtToken(bf.extension).value;
      assert (token + "-") + e == token + ("-" + e);
    }
  }

  lemma SpelledToken(bf: NodeFile, arch: string, format: string)
    requires FormatToken(bf.extension, format) && arch == if bf.arch == "" then "" else "-" + bf.arch
    ensures TokenSpells(bf.platform, arch, format, FileToken(bf))
  {
    FormatOf(bf.extension, format);
    if bf.platform == "darwin" {
      FormattedToken(bf, "osx", arch, format);
    } else if bf.platform == "win" {
      FormattedToken(bf, "win", arch, format);
    } else if bf.platform !in ["headers", "src", "pkg"] {
      PlainToken(bf, bf.platform, arch);
    }
  }

  /** What the token of an archive for `target` is. */
  predicate TargetToken(target: Target, ext: string, arch: string, format: string, token: string) {
    match target
    case NoTarget => (ext in ["tar.gz", "tar.xz", "tar.bz2", "tar"] ==> token == "src") && (ext == "pkg" ==> token == "pkg")
    case OnPlatform(platform) => TokenSpells(platform, "", format, token)
    case OnArch(platform, _, _) => TokenSpells(platform, arch, format, token)
  }

  lemma ExpectedToken(p: Parts, arch: string, format: string)
    requires FormatToken(p.ext, format) && (p.target.OnArch? ==> p.target.arch != "") && arch == "-" + ArchText(p)
    ensures TargetToken(p.target, p.ext, arch, format, FileToken(Expected(p)))
  {
    match p.target
    case NoTarget =>
    case OnPlatform(_) => SpelledToken(Expected(p), "", format);
    case OnArch(_, _, _) =>
      assert ArchText(p) != "";
      SpelledToken(Expected(p), arch, format);
  }

  /** The tokens of printed names: `linux-x64`, `osx-arm64-tar`, `win-x64-zip`, `headers`, `src`;
      only on macOS and Windows is the format spelled out. */
  lemma TokenOfName(p: Parts, arch: string, format: string)
    requires WellFormed(EXTENSIONS, p) && !Ambiguous(p) && FormatToken(p.ext, format) && arch == "-" + ArchText(p)
    ensures ParseNodeFilename(Filename(p)).Some?
    ensures TargetToken(p.target, p.ext, arch, format, FileToken(ParseNodeFilename(Filename(p)).value))
  {
    NodeFilenameRoundTrip(p);
    ExpectedToken(p, arch, format);
  }

  predicate TokenChar(c: char) {
    IsAlnum(c) || c in "_-."
  }

  ghost predicate TokenText(s: string) {
    forall c :: c in s ==> TokenChar(c)
  }

  ghost predicate GroupsAreTokens(p: Pattern) {
    && GroupWithin(p, "platform", TokenChar)
    && GroupWithin(p, "arch", TokenChar)
    && GroupWithin(p, "ext", TokenChar)
  }

  lemma {:induction false} LiteralTokens(t: string, rest: Pattern)
    requires GroupsAreTokens(rest)
    ensures GroupsAreTokens(Lit(t, rest))
    decreases |t|
  {
    if t != [] {
      LiteralTokens(t[1..], rest);
    }
  }

  lemma {:induction false} LiteralCloses(t: string, rest: Pattern)
    requires AllIn(t, AlnumDot)
    ensures ClosesWithin(Lit(t, Close("ext", rest)), "ext", TokenChar)
    decreases |t|
  {
    if t != [] {
      assert t[0] in t && forall c :: c in t[1..] ==> c in t;
      LiteralCloses(t[1..], rest);
    }
  }

  lemma {:induction false} ExtensionsTokens(es: seq<string>)
    requires es != [] && forall e :: e in es ==> AllIn(e, AlnumDot)
    ensures ClosesWithin(Extensions(es), "ext", TokenChar)
    ensures GroupWithin(Extensions(es), "platform", TokenChar) && GroupWithin(Extensions(es), "arch", TokenChar)
    decreases |es|
  {
    LiteralCloses(es[0], Finish(""));
    LiteralOtherGroups(es[0]);
    if |es| > 1 {
      ExtensionsTokens(es[1..]);
    }
  }

  lemma {:induction false} LiteralOtherGroups(t: string)
    ensures GroupWithin(Extension(t), "platform", TokenChar) && GroupWithin(Extension(t), "arch", TokenChar)
    decreases |t|
  {
    if t != [] {
      LiteralOtherGroups(t[1..]);
    }
  }

  lemma ExtensionPartTokens(es: seq<string>)
    requires GoodExtensions(es)
    ensures GroupsAreTokens(ExtensionPart(es))
  {
    ExtensionsTokens(es);
    assert GroupsAreTokens(Open("ext", Extensions(es)));
  }

  lemma ArchPartTokens(es: seq<string>)
    requires GoodExtensions(es)
    ensures GroupsAreTokens(ArchPart(es))
  {
    ExtensionPartTokens(es);
    var close := Close("arch", ExtensionPart(es));
    var repeat := Repeat('-', LowerWord, close);
    assert GroupWithin(repeat, "platform", TokenChar) && GroupWithin(repeat, "ext", TokenChar);
    assert ClosesWithin(close, "arch", TokenChar);
    assert ClosesWithin(repeat, "arch", TokenChar);
    var plus := Plus(LowerWord, true, repeat);
    assert ClosesWithin(plus, "arch", TokenChar);
    assert GroupWithin(plus, "platform", TokenChar) && GroupWithin(plus, "ext", TokenChar);
    assert GroupsAreTokens(Open("arch", plus));
  }

  lemma TargetTokens(es: seq<string>)
    requires GoodExtensions(es)
    ensures GroupsAreTokens(PlatformPart(es))
  {
    ExtensionPartTokens(es);
    ArchPartTokens(es);
    var after := AfterPlatform(es);
    assert GroupWithin(after, "arch", TokenChar) && GroupWithin(after, "ext", TokenChar);
    var plus := Plus(LowerAlnum, true, after);
    assert ClosesWithin(plus, "platform", TokenChar);
    assert GroupWithin(plus, "arch", TokenChar) && GroupWithin(plus, "ext", TokenChar);
    assert GroupsAreTokens(Open("platform", plus));
  }

  lemma PatternTokens(es: seq<string>)
    requires GoodExtensions(es)
    ensures GroupsAreTokens(NodePattern(es))
  {
    TargetTokens(es);
    var rest := PrereleaseTail(es);
    assert GroupsAreTokens(AfterVersion(es));
    assert GroupsAreTokens(rest);
    LiteralTokens("rc", rest);
    LiteralTokens("beta", rest);
    LiteralTokens("alpha", rest);
    LiteralTokens("nightly", rest);
    var last := Either(Lit("alpha", rest), Lit("nightly", rest));
    assert GroupsAreTokens(last);
    assert GroupsAreTokens(Either(Lit("beta", rest), last));
    assert GroupsAreTokens(PrereleasePart(es));
    CoreTokens(AfterCore(es));
    LiteralTokens("node-v", Open("version", CorePart(es)));
  }

  lemma CoreTokens(rest: Pattern)
    requires GroupsAreTokens(rest)
    ensures GroupsAreTokens(Plus(Digit, true, One(Exactly('.'), Plus(Digit, true, One(Exactly('.'), Plus(Digit, true, rest))))))
  {
    var third := Plus(Digit, true, rest);
    PlusTokens(Digit, rest);
    PlusTokens(Exactly('.'), third);
    PlusTokens(Digit, One(Exactly('.'), third));
    PlusTokens(Exactly('.'), Plus(Digit, true, One(Exactly('.'), third)));
    PlusTokens(Digit, One(Exactly('.'), Plus(Digit, true, One(Exactly('.'), third))));
  }

  lemma PlusTokens(cls: Class, rest: Pattern)
    requires GroupsAreTokens(rest)
    ensures GroupsAreTokens(One(cls, rest)) && GroupsAreTokens(Plus(cls, true, rest))
  {
    assert GroupsAreTokens(Many(cls, true, rest));
  }

  lemma GroupTextIsToken(p: Pattern, f: string, g: string)
    requires GroupWithin(p, g, TokenChar) && Match(p, f).Some? && g in Match(p, f).value
    ensures TokenText(Match(p, f).value[g])
  {
    GroupCharacters(p, f, g, TokenChar);
  }

  lemma ParsedTokens(es: seq<string>, f: string)
    requires GoodExtensions(es) && ParseWith(es, f).Some?
    ensures TokenText(ParseWith(es, f).value.platform)
    ensures TokenText(ParseWith(es, f).value.arch) && TokenText(ParseWith(es, f).value.extension)
  {
    PatternTokens(es);
    var p := NodePattern(es);
    var m := Match(p, f).value;
    if "platform" in m {
      GroupTextIsToken(p, f, "platform");
    }
    if "arch" in m {
      GroupTextIsToken(p, f, "arch");
    }
    if "ext" in m {
      GroupTextIsToken(p, f, "ext");
    }
    assert TokenText(GroupOr(m, "ext", ""));
  }

  lemma TokensAreClean(bf: NodeFile)
    requires TokenText(bf.platform) && TokenText(bf.arch) && TokenText(bf.extension)
    ensures ',' !in FileToken(bf) && '\t' !in FileToken(bf) && '\n' !in FileToken(bf)
  {
    var platform := if bf.platform == "darwin" then "osx" else bf.platform;
    assert TokenText(platform) && TokenText("-");
    assert TokenText(if bf.arch != "" then platform + "-" + bf.arch else platform);
    if ExtToken(bf.extension).Some? {
      assert TokenText(ExtToken(bf.extension).value);
    }
    assert TokenText(FileToken(bf));
  }

  /** The token of any archive the pattern accepts, whatever the rest of its name, can stand in
      a comma-, tab- and newline-separated document. */
  lemma FileTokenIsSeparatorFree(f: string)
    ensures match ParseNodeFilename(f)
      case None => true
      case Some(bf) => ',' !in FileToken(bf) && '\t' !in FileToken(bf) && '\n' !in FileToken(bf)
  {
    if ParseNodeFilename(f).Some? {
      ListedExtensionsAreGood();
      ParsedTokens(EXTENSIONS, f);
      TokensAreClean(ParseNodeFilename(f).value);
    }
  }

  /** An accepted archive name is accepted with a newline after it, and kept as it is. */
  lemma NewlineFilesAreAccepted(f: string)
    requires ParseNodeFilename(f).Some? && !EndsInNewline(f)
    ensures ParseNodeFilename(f + "\n").Some? && ParseNodeFilename(f + "\n").value.filename == f + "\n"
  {
    TryFindsExactlyTheMatches(NodePattern(EXTENSIONS), f);
    NewlineAccepted(NodePattern(EXTENSIONS), f);
    TryFindsExactlyTheMatches(NodePattern(EXTENSIONS), f + "\n");
  }
}
